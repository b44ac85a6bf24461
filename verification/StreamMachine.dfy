/**
  CFB (both directions) and OFB as machines that take one byte at a time (NIST SP 800-38A sections
  6.3 and 6.4): the reference for the buffer functions, which work in whole blocks where they can.
  The three modes differ in one assignment; a byte is any type Y with the operations of Ops.
*/
module StreamMachine {
  import opened Sequences
  import opened Blocks

  // out(k, x) is the output byte for input x under key byte k; kept(k, x) replaces k in the block.
  datatype Ops<!Y(!new)> = Ops(out: (Y, Y) -> Y, kept: (Y, Y) -> Y)

  // The block in use and the position of the next byte in it.  At position 0 the block has yet to
  // be encrypted.
  datatype Stream<Y> = Stream(iv: seq<Y>, pos: nat) {
    ghost predicate Valid() {
      |iv| == 16 && pos < 16
    }

    function KeyBlock(e: seq<Y> -> seq<Y>): seq<Y> {
      if pos == 0 then e(iv) else iv
    }
  }

  function Step<Y(!new)>(o: Ops<Y>, e: seq<Y> -> seq<Y>, s: Stream<Y>, x: Y): (t: Stream<Y>)
    requires OnBlocks(e) && s.Valid()
    ensures t.Valid()
  {
    var v := s.KeyBlock(e);
    Stream(v[s.pos := o.kept(v[s.pos], x)], if s.pos == 15 then 0 else s.pos + 1)
  }

  function OutByte<Y(!new)>(o: Ops<Y>, e: seq<Y> -> seq<Y>, s: Stream<Y>, x: Y): Y
    requires OnBlocks(e) && s.Valid()
  {
    o.out(s.KeyBlock(e)[s.pos], x)
  }

  // The state after a whole input, and the output for it.

  function Run<Y(!new)>(o: Ops<Y>, e: seq<Y> -> seq<Y>, s: Stream<Y>, input: seq<Y>): (t: Stream<Y>)
    requires OnBlocks(e) && s.Valid()
    ensures t.Valid()
  {
    if input == [] then s
    else Step(o, e, Run(o, e, s, input[..|input| - 1]), input[|input| - 1])
  }

  function Output<Y(!new)>(o: Ops<Y>, e: seq<Y> -> seq<Y>, s: Stream<Y>, input: seq<Y>): (out: seq<Y>)
    requires OnBlocks(e) && s.Valid()
    ensures |out| == |input|
  {
    if input == [] then []
    else
      var front := input[..|input| - 1];
      Output(o, e, s, front) + [OutByte(o, e, Run(o, e, s, front), input[|input| - 1])]
  }

  // One more byte.
  lemma RunSnoc<Y(!new)>(o: Ops<Y>, e: seq<Y> -> seq<Y>, s: Stream<Y>, input: seq<Y>, x: Y)
    requires OnBlocks(e) && s.Valid()
    ensures Run(o, e, s, input + [x]) == Step(o, e, Run(o, e, s, input), x)
    ensures Output(o, e, s, input + [x]) == Output(o, e, s, input) + [OutByte(o, e, Run(o, e, s, input), x)]
  {
    assert (input + [x])[..|input|] == input;
  }

  // Where a message is cut does not matter.
  lemma {:induction false} RunConcat<Y(!new)>(o: Ops<Y>, e: seq<Y> -> seq<Y>, s: Stream<Y>, a: seq<Y>, b: seq<Y>)
    requires OnBlocks(e) && s.Valid()
    ensures Run(o, e, s, a + b) == Run(o, e, Run(o, e, s, a), b)
    ensures Output(o, e, s, a + b) == Output(o, e, s, a) + Output(o, e, Run(o, e, s, a), b)
  {
    if b == [] {
      assert a + b == a;
    } else {
      var front, x := b[..|b| - 1], b[|b| - 1];
      RunConcat(o, e, s, a, front);
      var s' := Run(o, e, s, a);
      SplitLast(a, b);
      RunSnoc(o, e, s, a + front, x);
      RunSnoc(o, e, s', front, x);
      Assoc(Output(o, e, s, a), Output(o, e, s', front), [OutByte(o, e, Run(o, e, s', front), x)]);
    }
  }

  // A sequence of calls, each going on from the state the one before left.
  function Calls<Y(!new)>(o: Ops<Y>, e: seq<Y> -> seq<Y>, s: Stream<Y>, chunks: seq<seq<Y>>): seq<Y>
    requires OnBlocks(e) && s.Valid()
    decreases |chunks|
  {
    if chunks == [] then []
    else Output(o, e, s, chunks[0]) + Calls(o, e, Run(o, e, s, chunks[0]), chunks[1..])
  }

  lemma {:induction false} CallsAreOneCall<Y(!new)>(o: Ops<Y>, e: seq<Y> -> seq<Y>, s: Stream<Y>, chunks: seq<seq<Y>>)
    requires OnBlocks(e) && s.Valid()
    ensures Calls(o, e, s, chunks) == Output(o, e, s, Flatten(chunks))
    decreases |chunks|
  {
    if chunks != [] {
      CallsAreOneCall(o, e, Run(o, e, s, chunks[0]), chunks[1..]);
      RunConcat(o, e, s, chunks[0], Flatten(chunks[1..]));
    }
  }

  function Wrap(p: nat): nat {
    if p == 16 then 0 else p
  }

  // v with the bytes from p on combined with x
  function Overlaid<Y(!new)>(f: (Y, Y) -> Y, v: seq<Y>, p: nat, x: seq<Y>): (r: seq<Y>)
    requires p + |x| <= |v|
    ensures |r| == |v|
  {
    v[..p] + Zip(f, v[p..p + |x|], x) + v[p + |x|..]
  }

  lemma OverlaidMore<Y(!new)>(f: (Y, Y) -> Y, v: seq<Y>, p: nat, x: seq<Y>, y: Y)
    requires p + |x| < |v|
    ensures var w, n := Overlaid(f, v, p, x), p + |x|;
            w[n] == v[n] && w[n := f(v[n], y)] == Overlaid(f, v, p, x + [y])
  {
    ZipNext(f, v, p, x, y);
  }

  lemma ZipNext<Y(!new)>(f: (Y, Y) -> Y, v: seq<Y>, p: nat, x: seq<Y>, y: Y)
    requires p + |x| < |v|
    ensures Zip(f, v[p..p + |x + [y]|], x + [y]) == Zip(f, v[p..p + |x|], x) + [f(v[p + |x|], y)]
  {
  }

  lemma OverlaidNone<Y(!new)>(f: (Y, Y) -> Y, v: seq<Y>, p: nat)
    requires p <= |v|
    ensures Overlaid(f, v, p, []) == v && Zip(f, v[p..p], []) == []
  {
  }

  lemma StepWithin<Y(!new)>(o: Ops<Y>, e: seq<Y> -> seq<Y>, t: Stream<Y>, w: seq<Y>, y: Y)
    requires OnBlocks(e) && t.Valid() && t.KeyBlock(e) == w
    ensures |w| == 16 && Step(o, e, t, y) == Stream(w[t.pos := o.kept(w[t.pos], y)], Wrap(t.pos + 1)) && OutByte(o, e, t, y) == o.out(w[t.pos], y)
  {
  }

  // Within a block the output and the new block are made byte by byte from the block in use.
  ghost predicate Within<Y(!new)>(o: Ops<Y>, e: seq<Y> -> seq<Y>, s: Stream<Y>, x: seq<Y>)
    requires OnBlocks(e) && s.Valid() && s.pos + |x| <= 16
  {
    var v, t := s.KeyBlock(e), Run(o, e, s, x);
    && Output(o, e, s, x) == Zip(o.out, v[s.pos..s.pos + |x|], x) && t.pos == Wrap(s.pos + |x|)
    && (s.pos + |x| < 16 ==> t.KeyBlock(e) == Overlaid(o.kept, v, s.pos, x))
    && (x != [] ==> t.iv == Overlaid(o.kept, v, s.pos, x))
  }

  lemma WithinMore<Y(!new)>(o: Ops<Y>, e: seq<Y> -> seq<Y>, s: Stream<Y>, x: seq<Y>, y: Y)
    requires OnBlocks(e) && s.Valid() && s.pos + |x| < 16 && Within(o, e, s, x)
    ensures Within(o, e, s, x + [y])
  {
    var v, t, n := s.KeyBlock(e), Run(o, e, s, x), s.pos + |x|;
    assert |x + [y]| == |x| + 1 && t.pos == n;
    RunSnoc(o, e, s, x, y);
    StepWithin(o, e, t, Overlaid(o.kept, v, s.pos, x), y);
    OverlaidMore(o.kept, v, s.pos, x, y);
    ZipNext(o.out, v, s.pos, x, y);
    hide Run, Output, Overlaid, Step, OutByte, Zip;
  }

  lemma {:induction false} WithinBlock<Y(!new)>(o: Ops<Y>, e: seq<Y> -> seq<Y>, s: Stream<Y>, x: seq<Y>)
    requires OnBlocks(e) && s.Valid() && s.pos + |x| <= 16
    ensures Within(o, e, s, x)
    decreases |x|
  {
    if x == [] {
      OverlaidNone(o.kept, s.KeyBlock(e), s.pos);
      OverlaidNone(o.out, s.KeyBlock(e), s.pos);
    } else {
      hide Within;
      var front, y := x[..|x| - 1], x[|x| - 1];
      WithinBlock(o, e, s, front);
      WithinMore(o, e, s, front, y);
      SplitLast([], x);
    }
  }

  // So the rest of a block is output under the block itself, whatever the block cipher: a call at
  // position 1, where a key setup leaves the context, starts with the last fifteen bytes of the IV.
  lemma RestOfBlock<Y(!new)>(o: Ops<Y>, e: seq<Y> -> seq<Y>, iv: seq<Y>, p: nat, x: seq<Y>)
    requires OnBlocks(e) && |iv| == 16 && 0 < p < 16 && p + |x| <= 16
    ensures Output(o, e, Stream(iv, p), x) == Zip(o.out, iv[p..p + |x|], x)
    ensures Run(o, e, Stream(iv, p), x) == Stream(Overlaid(o.kept, iv, p, x), Wrap(p + |x|))
  {
    WithinBlock(o, e, Stream(iv, p), x);
    OverlaidNone(o.kept, iv, p);
    hide Output, Overlaid;
  }

  // A whole block from position 0 is one encryption of the state: the block formulas of the standard,
  // where the output and the next block are taken from the encrypted block and the input.
  lemma WholeBlock<Y(!new)>(o: Ops<Y>, e: seq<Y> -> seq<Y>, iv: seq<Y>, b: seq<Y>)
    requires OnBlocks(e) && |iv| == |b| == 16
    ensures Output(o, e, Stream(iv, 0), b) == Zip(o.out, e(iv), b)
    ensures Run(o, e, Stream(iv, 0), b) == Stream(Zip(o.kept, e(iv), b), 0)
  {
    WithinBlock(o, e, Stream(iv, 0), b);
    hide Run, Output;
    assert e(iv)[0..16] == e(iv) && e(iv)[..0] == e(iv)[16..] == [];
  }

  // The block in use after the first n bytes, and the output for up to sixteen more
  lemma NextPart<Y(!new)>(o: Ops<Y>, e: seq<Y> -> seq<Y>, iv: seq<Y>, x: seq<Y>, n: nat, l: nat)
    requires OnBlocks(e) && |iv| == 16 && n + l <= |x| && l <= 16
    requires Run(o, e, Stream(iv, 0), x[..n]).pos == 0
    ensures var v := e(Run(o, e, Stream(iv, 0), x[..n]).iv);
            && |v| == 16 && Output(o, e, Stream(iv, 0), x)[n..n + l] == Zip(o.out, v[..l], x[n..n + l])
            && (l == 16 ==> Run(o, e, Stream(iv, 0), x[..n + 16]) == Stream(Zip(o.kept, v, x[n..n + 16]), 0))
  {
    var s := Stream(iv, 0);
    var t := Run(o, e, s, x[..n]);
    var y := x[n..n + l];
    TakeMore(x, n, l);
    CutLast(x, n + l);
    RunConcat(o, e, s, x[..n], y);
    RunConcat(o, e, s, x[..n + l], x[n + l..]);
    WithinBlock(o, e, t, y);
    if l == 16 {
      WholeBlock(o, e, t.iv, y);
    }
    hide Run, Output, Zip, OnBlocks;
    Middle(Output(o, e, s, x[..n]), Output(o, e, t, y), Output(o, e, Run(o, e, s, x[..n + l]), x[n + l..]));
  }

  // The three modes, over an XOR on bytes.

  function CfbEncrypt<Y(!new)>(xor: (Y, Y) -> Y): Ops<Y> {
    Ops(xor, xor)
  }

  function CfbDecrypt<Y(!new)>(xor: (Y, Y) -> Y): Ops<Y> {
    Ops((k, x) => xor(x, k), (k, x) => x)
  }

  function Ofb<Y(!new)>(xor: (Y, Y) -> Y): Ops<Y> {
    Ops(xor, (k, x) => k)
  }

  // Decryption runs through the same states as encryption, and gives the message back.
  lemma {:induction false} CfbLockstep<Y(!new)>(xor: (Y, Y) -> Y, e: seq<Y> -> seq<Y>, s: Stream<Y>, message: seq<Y>)
    requires OnBlocks(e) && s.Valid() && IsXor(xor)
    ensures var enc, dec := CfbEncrypt(xor), CfbDecrypt(xor);
            var c := Output(enc, e, s, message);
            Run(dec, e, s, c) == Run(enc, e, s, message) && Output(dec, e, s, c) == message
  {
    if message != [] {
      var enc, dec := CfbEncrypt(xor), CfbDecrypt(xor);
      var front, x := message[..|message| - 1], message[|message| - 1];
      CfbLockstep(xor, e, s, front);
      SplitLast([], message);
      RunSnoc(dec, e, s, Output(enc, e, s, front), OutByte(enc, e, Run(enc, e, s, front), x));
    }
  }

  // CFB, from any IV and start position: encrypting in any calls and decrypting in any others.
  lemma CfbRoundTrip<Y(!new)>(xor: (Y, Y) -> Y, e: seq<Y> -> seq<Y>, s: Stream<Y>, plain: seq<seq<Y>>, cipher: seq<seq<Y>>)
    requires OnBlocks(e) && s.Valid() && IsXor(xor) && Flatten(cipher) == Calls(CfbEncrypt(xor), e, s, plain)
    ensures Calls(CfbDecrypt(xor), e, s, cipher) == Flatten(plain)
  {
    CallsAreOneCall(CfbEncrypt(xor), e, s, plain);
    CallsAreOneCall(CfbDecrypt(xor), e, s, cipher);
    CfbLockstep(xor, e, s, Flatten(plain));
  }

  // The OFB key stream does not depend on the message.
  lemma {:induction false} OfbStates<Y(!new)>(xor: (Y, Y) -> Y, e: seq<Y> -> seq<Y>, s: Stream<Y>, a: seq<Y>, b: seq<Y>)
    requires OnBlocks(e) && s.Valid() && |a| == |b|
    ensures Run(Ofb(xor), e, s, a) == Run(Ofb(xor), e, s, b)
  {
    if a != [] {
      OfbStates(xor, e, s, a[..|a| - 1], b[..|b| - 1]);
    }
  }

  lemma {:induction false} OfbTwice<Y(!new)>(xor: (Y, Y) -> Y, e: seq<Y> -> seq<Y>, s: Stream<Y>, message: seq<Y>)
    requires OnBlocks(e) && s.Valid() && IsXor(xor)
    ensures Output(Ofb(xor), e, s, Output(Ofb(xor), e, s, message)) == message
  {
    if message != [] {
      var o := Ofb(xor);
      var front, x := message[..|message| - 1], message[|message| - 1];
      OfbTwice(xor, e, s, front);
      SplitLast([], message);
      var c := Output(o, e, s, front);
      OfbStates(xor, e, s, front, c);
      RunSnoc(o, e, s, c, OutByte(o, e, Run(o, e, s, front), x));
    }
  }

  // OFB is its own inverse, whatever the calls on either side.
  lemma OfbRoundTrip<Y(!new)>(xor: (Y, Y) -> Y, e: seq<Y> -> seq<Y>, s: Stream<Y>, plain: seq<seq<Y>>, cipher: seq<seq<Y>>)
    requires OnBlocks(e) && s.Valid() && IsXor(xor) && Flatten(cipher) == Calls(Ofb(xor), e, s, plain)
    ensures Calls(Ofb(xor), e, s, cipher) == Flatten(plain)
  {
    CallsAreOneCall(Ofb(xor), e, s, plain);
    CallsAreOneCall(Ofb(xor), e, s, cipher);
    OfbTwice(xor, e, s, Flatten(plain));
  }

  // The formulas of the standard from position 0: how the part of the output from n on is made, out of
  // the block of ciphertext before it (CFB), or of the IV encrypted once more for every block (OFB)

  lemma KeptBytes<Y(!new)>(xor: (Y, Y) -> Y, v: seq<Y>, x: seq<Y>)
    requires |v| == |x|
    ensures Zip(CfbDecrypt(xor).kept, v, x) == x && Zip(Ofb(xor).kept, v, x) == v && v[..|v|] == v
  {
  }

  lemma NothingRun<Y(!new)>(o: Ops<Y>, e: seq<Y> -> seq<Y>, s: Stream<Y>, x: seq<Y>)
    requires OnBlocks(e) && s.Valid()
    ensures x[..0] == [] && Run(o, e, s, x[..0]) == s
  {
  }

  lemma {:induction false} CfbEncryptState<Y(!new)>(xor: (Y, Y) -> Y, e: seq<Y> -> seq<Y>, iv: seq<Y>, x: seq<Y>, n: nat)
    requires OnBlocks(e) && |iv| == 16 && n % 16 == 0 && n <= |x|
    ensures Run(CfbEncrypt(xor), e, Stream(iv, 0), x[..n]) == Stream(Before(iv, Output(CfbEncrypt(xor), e, Stream(iv, 0), x), n), 0)
    decreases n
  {
    hide Run, Output;
    if n == 0 {
      NothingRun(CfbEncrypt(xor), e, Stream(iv, 0), x);
    } else {
      CfbEncryptState(xor, e, iv, x, n - 16);
      NextPart(CfbEncrypt(xor), e, iv, x, n - 16, 16);
      KeptBytes(xor, e(Run(CfbEncrypt(xor), e, Stream(iv, 0), x[..n - 16]).iv), x[n - 16..n]);
    }
  }

  lemma {:induction false} CfbDecryptState<Y(!new)>(xor: (Y, Y) -> Y, e: seq<Y> -> seq<Y>, iv: seq<Y>, x: seq<Y>, n: nat)
    requires OnBlocks(e) && |iv| == 16 && n % 16 == 0 && n <= |x|
    ensures Run(CfbDecrypt(xor), e, Stream(iv, 0), x[..n]) == Stream(Before(iv, x, n), 0)
    decreases n
  {
    hide Run;
    if n == 0 {
      NothingRun(CfbDecrypt(xor), e, Stream(iv, 0), x);
    } else {
      CfbDecryptState(xor, e, iv, x, n - 16);
      NextPart(CfbDecrypt(xor), e, iv, x, n - 16, 16);
      KeptBytes(xor, e(Before(iv, x, n - 16)), x[n - 16..n]);
    }
  }

  lemma CfbPart<Y(!new)>(xor: (Y, Y) -> Y, e: seq<Y> -> seq<Y>, iv: seq<Y>, x: seq<Y>, n: nat, l: nat)
    requires OnBlocks(e) && |iv| == 16 && n % 16 == 0 && n + l <= |x| && l <= 16
    ensures var c := Output(CfbEncrypt(xor), e, Stream(iv, 0), x);
            |e(Before(iv, c, n))| == 16 && c[n..n + l] == Zip(xor, e(Before(iv, c, n))[..l], x[n..n + l])
    ensures var m := Output(CfbDecrypt(xor), e, Stream(iv, 0), x);
            |e(Before(iv, x, n))| == 16 && m[n..n + l] == Zip(xor, x[n..n + l], e(Before(iv, x, n))[..l])
  {
    hide Run, Output;
    CfbEncryptState(xor, e, iv, x, n);
    CfbDecryptState(xor, e, iv, x, n);
    NextPart(CfbEncrypt(xor), e, iv, x, n, l);
    NextPart(CfbDecrypt(xor), e, iv, x, n, l);
    var k := e(Before(iv, x, n))[..l];
    assert Zip(CfbDecrypt(xor).out, k, x[n..n + l]) == Zip(xor, x[n..n + l], k);
  }

  lemma {:induction false} OfbState<Y(!new)>(xor: (Y, Y) -> Y, e: seq<Y> -> seq<Y>, iv: seq<Y>, x: seq<Y>, i: nat)
    requires OnBlocks(e) && |iv| == 16 && 16 * i <= |x|
    ensures Run(Ofb(xor), e, Stream(iv, 0), x[..16 * i]) == Stream(Iterate(e, i, iv), 0)
  {
    hide Run;
    if i == 0 {
      NothingRun(Ofb(xor), e, Stream(iv, 0), x);
    } else {
      var n := 16 * (i - 1);
      OfbState(xor, e, iv, x, i - 1);
      NextPart(Ofb(xor), e, iv, x, n, 16);
      KeptBytes(xor, e(Iterate(e, i - 1, iv)), x[n..n + 16]);
    }
  }

  lemma OfbPart<Y(!new)>(xor: (Y, Y) -> Y, e: seq<Y> -> seq<Y>, iv: seq<Y>, x: seq<Y>, i: nat, l: nat)
    requires OnBlocks(e) && |iv| == 16 && 16 * i + l <= |x| && l <= 16
    ensures |Iterate(e, i + 1, iv)| == 16
    ensures Output(Ofb(xor), e, Stream(iv, 0), x)[16 * i..16 * i + l] == Zip(xor, Iterate(e, i + 1, iv)[..l], x[16 * i..16 * i + l])
  {
    hide Run, Output;
    OfbState(xor, e, iv, x, i);
    NextPart(Ofb(xor), e, iv, x, 16 * i, l);
  }
}
