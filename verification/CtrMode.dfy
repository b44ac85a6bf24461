/**
  aes_ctr_crypt of aes_modes.c, which encrypts up to eight counter blocks at a time into a local
  buffer.  The input and output buffers may be one and the same.
*/
module CtrMode {
  import opened Sequences
  import opened Blocks
  import opened ModeContexts
  import opened BlockChaining
  import opened BufferXor
  import opened BufferProgress
  import opened CtrMachine
  import BlockModes

  // BFR_LENGTH
  const BUFFER_LENGTH: nat := 128

  // The contents of the local buffer before encryption
  function CounterBlocks<Y(!new)>(inc: seq<Y> -> seq<Y>, c: seq<Y>, m: nat): (r: seq<Y>)
    requires OnBlocks(inc) && |c| == 16
    ensures |r| == 16 * m
  {
    if m == 0 then [] else
      CounterIsBlock(inc, m - 1, c);
      CounterBlocks(inc, c, m - 1) + Iterate(inc, m - 1, c)
  }

  lemma KeyOfBlock<Y(!new)>(e: seq<Y> -> seq<Y>, inc: seq<Y> -> seq<Y>, c: seq<Y>, p: nat, n: nat)
    requires OnBlocks(e) && OnBlocks(inc) && |c| == 16 && p + n <= 16
    ensures KeyStream(e, inc, Counter(c, p), n) == e(c)[p..p + n]
  {
    forall j | 0 <= j < n
      ensures KeyByte(e, inc, Counter(c, p), j) == e(c)[p + j]
    {
      assert (p + j) / 16 == 0 && Iterate(inc, 0, c) == c;
    }
  }

  lemma AfterBlocks<Y(!new)>(inc: seq<Y> -> seq<Y>, c: seq<Y>, m: nat)
    requires OnBlocks(inc) && |c| == 16
    ensures After(inc, Counter(c, 0), 16 * m) == Counter(Iterate(inc, m, c), 0)
  {
    hide Iterate, OnBlocks;
    assert (0 + 16 * m) / 16 == m;
  }

  lemma {:induction false} EncryptedCounters<Y(!new)>(e: seq<Y> -> seq<Y>, inc: seq<Y> -> seq<Y>, c: seq<Y>, m: nat)
    requires OnBlocks(e) && OnBlocks(inc) && |c| == 16
    ensures Ecb(e, CounterBlocks(inc, c, m)) == KeyStream(e, inc, Counter(c, 0), 16 * m)
  {
    hide KeyStream, KeyByte, After;
    if m != 0 {
      EncryptedCounters(e, inc, c, m - 1);
      CounterIsBlock(inc, m - 1, c);
      AfterBlocks(inc, c, m - 1);
      EcbSnoc(e, CounterBlocks(inc, c, m - 1), Iterate(inc, m - 1, c));
      KeyStreamSplit(e, inc, Counter(c, 0), 16 * (m - 1), 16);
      KeyOfBlock(e, inc, Iterate(inc, m - 1, c), 0, 16);
    }
  }

  // ctr_inc(cbuf)
  method Increment<Y(!new)>(inc: seq<Y> -> seq<Y>, cbuf: array<Y>)
    requires OnBlocks(inc) && cbuf.Length == 16
    modifies cbuf
    ensures cbuf[..] == inc(old(cbuf[..]))
  {
    StoredAll(cbuf[..], inc(cbuf[..]));
    StoreBlock(cbuf, 0, inc(cbuf[..]));
  }

  // The counter blocks for blen bytes; only whole blocks advance the counter.
  method FillCounters<Y(!new)>(inc: seq<Y> -> seq<Y>, cbuf: array<Y>, buf: array<Y>, blen: nat) returns (m: nat)
    requires OnBlocks(inc) && cbuf.Length == 16 && cbuf != buf && blen <= BUFFER_LENGTH == buf.Length
    modifies cbuf, buf
    ensures m == (blen + 15) / 16 && buf[..16 * m] == CounterBlocks(inc, old(cbuf[..]), m)
    ensures cbuf[..] == Iterate(inc, blen / 16, old(cbuf[..]))
  {
    ghost var c := cbuf[..];
    m := 0;
    assert CounterBlocks(inc, c, 0) == [] && Iterate(inc, 0, c) == c;
    while m < blen / 16
      invariant m <= blen / 16 && buf[..16 * m] == CounterBlocks(inc, c, m) && cbuf[..] == Iterate(inc, m, c)
    {
      StoredFront(buf[..], 16 * m, cbuf[..]);
      StoreBlock(buf, 16 * m, cbuf[..]);
      Increment(inc, cbuf);
      m := m + 1;
    }
    if blen % 16 != 0 {
      StoredFront(buf[..], 16 * m, cbuf[..]);
      StoreBlock(buf, 16 * m, cbuf[..]);
      m := m + 1;
    }
  }

  // n bytes of output from n bytes of input and of the buffer, one at a time
  method XorSome<Y(!new)>(xor: (Y, Y) -> Y, ibuf: array<Y>, obuf: array<Y>, at: nat, buf: array<Y>, from: nat, n: nat)
    requires at + n <= ibuf.Length && at + n <= obuf.Length && from + n <= buf.Length && buf != obuf
    modifies obuf
    ensures obuf[..] == Stored(old(obuf[..]), at, Zip(xor, old(ibuf[at..at + n]), buf[from..from + n]))
  {
    ghost var out0, x, y := obuf[..], ibuf[at..at + n], buf[from..from + n];
    for i := 0 to n
      invariant forall k :: i <= k < n ==> ibuf[at + k] == x[k]
      invariant forall k :: 0 <= k < |out0| && !(at <= k < at + i) ==> obuf[k] == out0[k]
      invariant forall k :: at <= k < at + i ==> obuf[k] == xor(x[k - at], y[k - at])
    {
      assert buf[from + i] == y[i];
      obuf[at + i] := xor(ibuf[at + i], buf[from + i]);
    }
    assert obuf[..] == Stored(out0, at, Zip(xor, x, y));
  }

  lemma ZipPrefix<Y(!new)>(xor: (Y, Y) -> Y, x: seq<Y>, y: seq<Y>, i: nat, n: nat)
    requires |x| == |y| && i + n <= |x|
    ensures Zip(xor, x[..i + n], y[..i + n]) == Zip(xor, x[..i], y[..i]) + Zip(xor, x[i..i + n], y[i..i + n])
  {
    TakeMore(x, i, n);
    TakeMore(y, i, n);
    ZipConcat(xor, x[..i], y[..i], x[i..i + n], y[i..i + n]);
  }

  // i of the n bytes are written.
  ghost predicate Written<Y(!new)>(xor: (Y, Y) -> Y, x: seq<Y>, y: seq<Y>, out0: seq<Y>, at: nat, ibuf: seq<Y>, obuf: seq<Y>, i: nat) {
    && i <= |x| == |y| && at + |x| <= |out0| && at + |x| <= |ibuf|
    && obuf == Stored(out0, at, Zip(xor, x[..i], y[..i]))
    && ibuf[at + i..at + |x|] == x[i..]
  }

  lemma WriteStart<Y(!new)>(xor: (Y, Y) -> Y, x: seq<Y>, y: seq<Y>, out0: seq<Y>, at: nat, ibuf: seq<Y>)
    requires |x| == |y| && at + |x| <= |out0| && at + |x| <= |ibuf| && x == ibuf[at..at + |x|]
    ensures Written(xor, x, y, out0, at, ibuf, out0, 0)
  {
  }

  lemma WriteMore<Y(!new)>(xor: (Y, Y) -> Y, x: seq<Y>, y: seq<Y>, out0: seq<Y>, at: nat, ibuf: seq<Y>, obuf: seq<Y>, i: nat, n: nat,
                           ibuf': seq<Y>, obuf': seq<Y>)
    requires Written(xor, x, y, out0, at, ibuf, obuf, i) && i + n <= |x|
    requires obuf' == Stored(obuf, at + i, Zip(xor, x[i..i + n], y[i..i + n])) && (ibuf' == ibuf || (ibuf == obuf && ibuf' == obuf'))
    ensures Written(xor, x, y, out0, at, ibuf', obuf', i + n)
  {
    ZipPrefix(xor, x, y, i, n);
    var b := Zip(xor, x[i..i + n], y[i..i + n]);
    StoredMore(out0, at, Zip(xor, x[..i], y[..i]), b);
    assert ibuf[at + i..at + |x|][n..] == ibuf[at + i + n..at + |x|];
    TakeMore(x, i, n);
    assert obuf'[at + i + n..at + |x|] == obuf[at + i + n..at + |x|];
  }

  lemma Slices<Y(!new)>(xor: (Y, Y) -> Y, x: seq<Y>, y: seq<Y>, out0: seq<Y>, at: nat, ibuf: seq<Y>, obuf: seq<Y>, buf: seq<Y>, i: nat, n: nat)
    requires Written(xor, x, y, out0, at, ibuf, obuf, i) && i + n <= |x| <= |buf| && buf[..|x|] == y
    ensures |x| == |y| && |obuf| == |out0| && at + |x| <= |ibuf| && at + |x| <= |obuf|
    ensures buf[i..i + n] == y[i..i + n] && ibuf[at + i..at + i + n] == x[i..i + n]
  {
    assert buf[..|x|][i..i + n] == buf[i..i + n];
    assert ibuf[at + i..at + |x|][..n] == ibuf[at + i..at + i + n];
    TakeMore(x, i, n);
  }

  method BlockOut<Y(!new)>(xor: (Y, Y) -> Y, xor32: (Four<Y>, Four<Y>) -> Four<Y>, aligned: bool,
                           ghost x: seq<Y>, ghost y: seq<Y>, ghost out0: seq<Y>,
                           ibuf: array<Y>, obuf: array<Y>, at: nat, buf: array<Y>, i: nat)
    requires Written(xor, x, y, out0, at, ibuf[..], obuf[..], i) && i + 16 <= |x|
    requires |x| <= buf.Length && buf[..][..|x|] == y && buf != obuf && WordwiseXor(xor, xor32)
    modifies obuf
    ensures Written(xor, x, y, out0, at, ibuf[..], obuf[..], i + 16)
  {
    ghost var ib, ob := ibuf[..], obuf[..];
    Slices(xor, x, y, out0, at, ib, ob, buf[..], i, 16);
    ghost var xi, yi := x[i..i + 16], y[i..i + 16];
    assert ibuf[at + i..at + i + 16] == xi && buf[i..i + 16] == yi;
    hide Written, Zip, Stored, WordwiseXor;
    XorBlock(xor, xor32, aligned, obuf, at + i, ibuf, at + i, buf, i);
    assert obuf[..] == Stored(ob, at + i, Zip(xor, xi, yi));
    WriteMore(xor, x, y, out0, at, ib, ob, i, 16, ibuf[..], obuf[..]);
  }

  method RestOut<Y(!new)>(xor: (Y, Y) -> Y, ghost x: seq<Y>, ghost y: seq<Y>, ghost out0: seq<Y>,
                          ibuf: array<Y>, obuf: array<Y>, at: nat, buf: array<Y>, i: nat, n: nat)
    requires Written(xor, x, y, out0, at, ibuf[..], obuf[..], i) && i + n == |x|
    requires |x| <= buf.Length && buf[..][..|x|] == y && buf != obuf
    modifies obuf
    ensures Written(xor, x, y, out0, at, ibuf[..], obuf[..], i + n)
  {
    ghost var ib, ob := ibuf[..], obuf[..];
    Slices(xor, x, y, out0, at, ib, ob, buf[..], i, n);
    hide Written, Zip, Stored;
    XorSome(xor, ibuf, obuf, at + i, buf, i, n);
    WriteMore(xor, x, y, out0, at, ib, ob, i, n, ibuf[..], obuf[..]);
  }

  // The second half of a round of the main loop: whole blocks by words or by bytes, then the rest
  // from b_pos on.
  method XorOut<Y(!new)>(xor: (Y, Y) -> Y, xor32: (Four<Y>, Four<Y>) -> Four<Y>, aligned: bool,
                         ibuf: array<Y>, obuf: array<Y>, at: nat, buf: array<Y>, blen: nat)
    requires at + blen <= ibuf.Length && at + blen <= obuf.Length && blen <= buf.Length && buf != obuf && WordwiseXor(xor, xor32)
    modifies obuf
    ensures obuf[..] == Stored(old(obuf[..]), at, Zip(xor, old(ibuf[at..at + blen]), buf[..blen]))
  {
    ghost var out0, x, y := obuf[..], ibuf[at..at + blen], buf[..blen];
    var i := 0;
    WriteStart(xor, x, y, out0, at, ibuf[..]);
    hide Written, Zip, Stored, WordwiseXor;
    while i + 16 <= blen
      invariant i <= blen && Written(xor, x, y, out0, at, ibuf[..], obuf[..], i)
    {
      BlockOut(xor, xor32, aligned, x, y, out0, ibuf, obuf, at, buf, i);
      i := i + 16;
    }
    RestOut(xor, x, y, out0, ibuf, obuf, at, buf, i, blen - i);
    AllWritten(xor, x, y, out0, at, ibuf[..], obuf[..]);
  }

  lemma AllWritten<Y(!new)>(xor: (Y, Y) -> Y, x: seq<Y>, y: seq<Y>, out0: seq<Y>, at: nat, ibuf: seq<Y>, obuf: seq<Y>)
    requires Written(xor, x, y, out0, at, ibuf, obuf, |x|)
    ensures |x| == |y| && at + |x| <= |out0| && obuf == Stored(out0, at, Zip(xor, x, y))
  {
    assert x[..|x|] == x && y[..|y|] == y;
  }

  // At a multiple of the block length the states add up.
  lemma AfterSum<Y(!new)>(inc: seq<Y> -> seq<Y>, s: Counter<Y>, m: nat, n: nat)
    requires OnBlocks(inc) && s.Valid() && After(inc, s, m).pos == 0
    ensures After(inc, s, m + n) == After(inc, After(inc, s, m), n)
  {
    var t := After(inc, s, m);
    var k, l := if 0 < s.pos && s.pos + m <= 16 then 0 else (s.pos + m) / 16, n / 16;
    assert s.pos + m == 16 * k;
    assert (s.pos + m + n) / 16 == k + l;
    IterateSum(inc, l, k, s.block);
  }

  // One round of the main loop: up to eight blocks.
  method Chunk<Y(!new)>(xor: (Y, Y) -> Y, xor32: (Four<Y>, Four<Y>) -> Four<Y>, aligned: bool, inc: seq<Y> -> seq<Y>, ctx: ModeContext<Y>,
                        ibuf: array<Y>, obuf: array<Y>, at: nat, blen: nat, cbuf: array<Y>, buf: array<Y>) returns (b_pos: nat, ok: bool)
    requires ctx.Valid() && OnBlocks(inc) && WordwiseXor(xor, xor32) && cbuf.Length == 16 && blen <= BUFFER_LENGTH == buf.Length
    requires at + blen <= ibuf.Length && at + blen <= obuf.Length && blen > 0
    requires buf != ibuf && buf != obuf && buf != cbuf && cbuf != ibuf && cbuf != obuf
    modifies obuf, cbuf, buf
    ensures ok == ctx.keyed
    ensures var s, x := Counter(old(cbuf[..]), 0), old(ibuf[at..at + blen]);
            && cbuf[..] == After(inc, s, blen).block && b_pos == After(inc, s, blen).pos
            && obuf[..] == if ok then Stored(old(obuf[..]), at, Output(xor, ctx.cipher, inc, s, x)) else old(obuf[..])
  {
    ghost var c, x := cbuf[..], ibuf[at..at + blen];
    var m := FillCounters(inc, cbuf, buf, blen);
    ok := EncryptBuffer(ctx, buf, 16 * m);
    b_pos := blen % 16;
    if ok {
      EncryptedCounters(ctx.cipher, inc, c, m);
      KeyPrefix(ctx.cipher, inc, Counter(c, 0), blen, 16 * m);
      assert buf[..blen] == buf[..16 * m][..blen];
      XorOut(xor, xor32, aligned, ibuf, obuf, at, buf, blen);
    }
  }

  // aes_ecb_encrypt(buf, buf, len, ctx)
  method EncryptBuffer<Y(!new)>(ctx: ModeContext<Y>, buf: array<Y>, len: nat) returns (ok: bool)
    requires ctx.Valid() && len <= buf.Length && len % 16 == 0
    modifies buf
    ensures ok == (ctx.keyed || len == 0)
    ensures ok ==> buf[..len] == BlockChaining.Ecb(ctx.cipher, old(buf[..len]))
  {
    ok := BlockModes.Ecb(ctx, buf, buf, len);
  }

  lemma KeyPrefix<Y(!new)>(e: seq<Y> -> seq<Y>, inc: seq<Y> -> seq<Y>, s: Counter<Y>, m: nat, n: nat)
    requires OnBlocks(e) && OnBlocks(inc) && s.Valid() && m <= n
    ensures KeyStream(e, inc, s, n)[..m] == KeyStream(e, inc, s, m)
  {
  }

  lemma KeySlice<Y(!new)>(e: seq<Y> -> seq<Y>, inc: seq<Y> -> seq<Y>, s: Counter<Y>, i: nat, n: nat, len: nat)
    requires OnBlocks(e) && OnBlocks(inc) && s.Valid() && i + n <= len
    ensures KeyStream(e, inc, s, len)[i..i + n] == KeyStream(e, inc, After(inc, s, i), n)
  {
    KeyStreamSplit(e, inc, s, i, n);
    KeyPrefix(e, inc, s, i + n, len);
    assert KeyStream(e, inc, s, len)[..i + n][i..] == KeyStream(e, inc, s, len)[i..i + n];
  }

  // The main loop between two rounds
  ghost predicate Between<Y(!new)>(xor: (Y, Y) -> Y, e: seq<Y> -> seq<Y>, inc: seq<Y> -> seq<Y>, s: Counter<Y>, x: seq<Y>, out0: seq<Y>, base: nat,
                                   ibuf: seq<Y>, obuf: seq<Y>, v: seq<Y>, b_pos: nat, i: nat) {
    && OnBlocks(e) && OnBlocks(inc) && s.Valid() && s.pos == 0
    && Written(xor, x, KeyStream(e, inc, s, |x|), out0, base, ibuf, obuf, i)
    && After(inc, s, i) == Counter(v, b_pos)
  }

  lemma BetweenStart<Y(!new)>(xor: (Y, Y) -> Y, e: seq<Y> -> seq<Y>, inc: seq<Y> -> seq<Y>, s: Counter<Y>, x: seq<Y>, out0: seq<Y>, base: nat, ibuf: seq<Y>)
    requires OnBlocks(e) && OnBlocks(inc) && s.Valid() && s.pos == 0
    requires base + |x| <= |out0| && base + |x| <= |ibuf| && x == ibuf[base..base + |x|]
    ensures Between(xor, e, inc, s, x, out0, base, ibuf, out0, s.block, 0, 0)
  {
    WriteStart(xor, x, KeyStream(e, inc, s, |x|), out0, base, ibuf);
  }

  lemma BetweenStep<Y(!new)>(xor: (Y, Y) -> Y, e: seq<Y> -> seq<Y>, inc: seq<Y> -> seq<Y>, s: Counter<Y>, x: seq<Y>, out0: seq<Y>, base: nat,
                             ibuf: seq<Y>, obuf: seq<Y>, v: seq<Y>, i: nat, n: nat, ibuf': seq<Y>, obuf': seq<Y>, v': seq<Y>, b_pos: nat)
    requires Between(xor, e, inc, s, x, out0, base, ibuf, obuf, v, 0, i) && i + n <= |x| && Counter(v, 0).Valid()
    requires base + i + n <= |obuf| && base + i + n <= |ibuf|
    requires obuf' == Stored(obuf, base + i, Output(xor, e, inc, Counter(v, 0), ibuf[base + i..base + i + n]))
    requires After(inc, Counter(v, 0), n) == Counter(v', b_pos) && (ibuf' == ibuf || (ibuf == obuf && ibuf' == obuf'))
    ensures Between(xor, e, inc, s, x, out0, base, ibuf', obuf', v', b_pos, i + n)
  {
    var y := KeyStream(e, inc, s, |x|);
    KeySlice(e, inc, s, i, n, |x|);
    assert ibuf[base + i..base + |x|][..n] == ibuf[base + i..base + i + n];
    TakeMore(x, i, n);
    WriteMore(xor, x, y, out0, base, ibuf, obuf, i, n, ibuf', obuf');
    AfterSum(inc, s, i, n);
  }

  lemma BetweenEnd<Y(!new)>(xor: (Y, Y) -> Y, e: seq<Y> -> seq<Y>, inc: seq<Y> -> seq<Y>, s: Counter<Y>, x: seq<Y>, out0: seq<Y>, base: nat,
                            ibuf: seq<Y>, obuf: seq<Y>, v: seq<Y>, b_pos: nat)
    requires Between(xor, e, inc, s, x, out0, base, ibuf, obuf, v, b_pos, |x|)
    ensures OnBlocks(e) && OnBlocks(inc) && s.Valid() && base + |x| <= |out0|
    ensures obuf == Stored(out0, base, Output(xor, e, inc, s, x)) && After(inc, s, |x|) == Counter(v, b_pos)
  {
    AllWritten(xor, x, KeyStream(e, inc, s, |x|), out0, base, ibuf, obuf);
  }

  // After a multiple of the block length, as all but the last round leave it, b_pos is 0.
  lemma AtBlock<Y(!new)>(xor: (Y, Y) -> Y, e: seq<Y> -> seq<Y>, inc: seq<Y> -> seq<Y>, s: Counter<Y>, x: seq<Y>, out0: seq<Y>, base: nat,
                         ibuf: seq<Y>, obuf: seq<Y>, v: seq<Y>, b_pos: nat, i: nat)
    requires Between(xor, e, inc, s, x, out0, base, ibuf, obuf, v, b_pos, i)
    ensures |v| == 16 && b_pos == i % 16 && |obuf| == |out0| && base + |x| <= |obuf| && base + |x| <= |ibuf|
  {
  }

  method Round<Y(!new)>(xor: (Y, Y) -> Y, xor32: (Four<Y>, Four<Y>) -> Four<Y>, aligned: bool, inc: seq<Y> -> seq<Y>, ctx: ModeContext<Y>,
                        ghost s: Counter<Y>, ghost x: seq<Y>, ghost out0: seq<Y>, ghost base: nat,
                        ibuf: array<Y>, obuf: array<Y>, at: nat, blen: nat, cbuf: array<Y>, buf: array<Y>, ghost pos: nat) returns (b_pos: nat, ok: bool)
    requires ctx.Valid() && OnBlocks(inc) && WordwiseXor(xor, xor32) && cbuf.Length == 16 && 0 < blen <= BUFFER_LENGTH == buf.Length
    requires base <= at && at + blen <= base + |x| && (at - base) % 16 == 0
    requires buf != ibuf && buf != obuf && buf != cbuf && cbuf != ibuf && cbuf != obuf
    requires Between(xor, ctx.cipher, inc, s, x, out0, base, ibuf[..], obuf[..], cbuf[..], pos, at - base)
    modifies obuf, cbuf, buf
    ensures ok == ctx.keyed
    ensures if ok then Between(xor, ctx.cipher, inc, s, x, out0, base, ibuf[..], obuf[..], cbuf[..], b_pos, at + blen - base)
            else obuf[..] == old(obuf[..]) && cbuf[..] == After(inc, Counter(old(cbuf[..]), 0), blen).block
  {
    hide *;
    ghost var ib, ob, v := ibuf[..], obuf[..], cbuf[..];
    AtBlock(xor, ctx.cipher, inc, s, x, out0, base, ib, ob, v, pos, at - base);
    b_pos, ok := Chunk(xor, xor32, aligned, inc, ctx, ibuf, obuf, at, blen, cbuf, buf);
    if ok {
      BetweenStep(xor, ctx.cipher, inc, s, x, out0, base, ib, ob, v, at - base, blen, ibuf[..], obuf[..], cbuf[..], b_pos);
    }
  }

  // while (len)
  method Rounds<Y(!new)>(xor: (Y, Y) -> Y, xor32: (Four<Y>, Four<Y>) -> Four<Y>, aligned: bool, inc: seq<Y> -> seq<Y>, ctx: ModeContext<Y>,
                         ghost s: Counter<Y>, ghost x: seq<Y>, ghost out0: seq<Y>,
                         ibuf: array<Y>, obuf: array<Y>, base: nat, len: nat, cbuf: array<Y>, buf: array<Y>) returns (b_pos: nat, ok: bool)
    requires ctx.Valid() && OnBlocks(inc) && WordwiseXor(xor, xor32) && cbuf.Length == 16 && BUFFER_LENGTH == buf.Length
    requires base <= len == base + |x|
    requires buf != ibuf && buf != obuf && buf != cbuf && cbuf != ibuf && cbuf != obuf
    requires Between(xor, ctx.cipher, inc, s, x, out0, base, ibuf[..], obuf[..], cbuf[..], 0, 0)
    modifies obuf, cbuf, buf
    ensures ok == (ctx.keyed || base == len)
    ensures ok ==> Between(xor, ctx.cipher, inc, s, x, out0, base, ibuf[..], obuf[..], cbuf[..], b_pos, |x|)
    ensures !ok ==> obuf[..] == old(obuf[..])
                    && cbuf[..] == After(inc, Counter(old(cbuf[..]), 0), if |x| > BUFFER_LENGTH then BUFFER_LENGTH else |x|).block
  {
    hide Between, After, WordwiseXor, OnBlocks, ModeContext.Valid;
    b_pos := 0;
    var at := base;
    while at < len
      invariant base <= at <= len && (at < len ==> (at - base) % 16 == 0) && (ctx.keyed || at == base)
      invariant at == base ==> obuf[..] == old(obuf[..]) && cbuf[..] == old(cbuf[..])
      invariant Between(xor, ctx.cipher, inc, s, x, out0, base, ibuf[..], obuf[..], cbuf[..], b_pos, at - base)
    {
      var blen := if len - at > BUFFER_LENGTH then BUFFER_LENGTH else len - at;
      b_pos, ok := Round(xor, xor32, aligned, inc, ctx, s, x, out0, base, ibuf, obuf, at, blen, cbuf, buf, b_pos);
      if !ok {
        return;
      }
      at := at + blen;
    }
    ok := true;
  }

  method MainLoop<Y(!new)>(xor: (Y, Y) -> Y, xor32: (Four<Y>, Four<Y>) -> Four<Y>, aligned: bool, inc: seq<Y> -> seq<Y>, ctx: ModeContext<Y>,
                           ibuf: array<Y>, obuf: array<Y>, base: nat, len: nat, cbuf: array<Y>, buf: array<Y>) returns (b_pos: nat, ok: bool)
    requires ctx.Valid() && OnBlocks(inc) && WordwiseXor(xor, xor32) && cbuf.Length == 16 && BUFFER_LENGTH == buf.Length
    requires base <= len <= ibuf.Length && len <= obuf.Length
    requires buf != ibuf && buf != obuf && buf != cbuf && cbuf != ibuf && cbuf != obuf
    modifies obuf, cbuf, buf
    ensures ok == (ctx.keyed || base == len)
    ensures var s := Counter(old(cbuf[..]), 0);
            if ok then
              && obuf[..] == Stored(old(obuf[..]), base, Output(xor, ctx.cipher, inc, s, old(ibuf[base..len])))
              && Counter(cbuf[..], b_pos) == After(inc, s, len - base)
            else
              && obuf[..] == old(obuf[..])
              && cbuf[..] == After(inc, s, if len - base > BUFFER_LENGTH then BUFFER_LENGTH else len - base).block
  {
    ghost var s, x, out0 := Counter(cbuf[..], 0), ibuf[base..len], obuf[..];
    BetweenStart(xor, ctx.cipher, inc, s, x, out0, base, ibuf[..]);
    hide Between, After, Output, WordwiseXor, Stored;
    b_pos, ok := Rounds(xor, xor32, aligned, inc, ctx, s, x, out0, ibuf, obuf, base, len, cbuf, buf);
    if ok {
      BetweenEnd(xor, ctx.cipher, inc, s, x, out0, base, ibuf[..], obuf[..], cbuf[..], b_pos);
    }
  }

  // What is left after the first h bytes, which complete the block at s, starts at the next counter.
  lemma NextCounter<Y(!new)>(xor: (Y, Y) -> Y, e: seq<Y> -> seq<Y>, inc: seq<Y> -> seq<Y>, c: seq<Y>, p: nat, input: seq<Y>, h: nat)
    requires OnBlocks(e) && OnBlocks(inc) && |c| == 16 && 0 < p && p + h == 16 && h < |input|
    ensures var s, t := Counter(c, p), Counter(inc(c), 0);
            && Output(xor, e, inc, s, input) == Output(xor, e, inc, s, input[..h]) + Output(xor, e, inc, t, input[h..])
            && After(inc, s, |input|) == After(inc, t, |input| - h)
  {
    var s, t := Counter(c, p), Counter(inc(c), 0);
    var l := |input| - h;
    assert input == input[..h] + input[h..];
    OutputConcat(xor, e, inc, s, input[..h], input[h..]);
    assert After(inc, s, h) == Counter(Iterate(inc, 0, c), 16) == Counter(c, 16);
    SameKeys(e, inc, c, l);
    assert (p + |input|) / 16 == l / 16 + 1;
    assert Iterate(inc, 1, c) == inc(Iterate(inc, 0, c)) == inc(c);
    IterateSum(inc, l / 16, 1, c);
  }

  lemma SameKeys<Y(!new)>(e: seq<Y> -> seq<Y>, inc: seq<Y> -> seq<Y>, c: seq<Y>, n: nat)
    requires OnBlocks(e) && OnBlocks(inc) && |c| == 16
    ensures KeyStream(e, inc, Counter(c, 16), n) == KeyStream(e, inc, Counter(inc(c), 0), n)
  {
    forall j | 0 <= j < n
      ensures KeyByte(e, inc, Counter(c, 16), j) == KeyByte(e, inc, Counter(inc(c), 0), j)
    {
      EndOfBlock(e, inc, c, j);
    }
  }

  lemma HeadKey<Y(!new)>(e: seq<Y> -> seq<Y>, inc: seq<Y> -> seq<Y>, c: seq<Y>, p: nat, h: nat, buf: seq<Y>)
    requires OnBlocks(e) && OnBlocks(inc) && |c| == 16 && p + h <= 16 <= |buf| && buf[..16] == BlockChaining.Ecb(e, c)
    ensures buf[p..p + h] == KeyStream(e, inc, Counter(c, p), h)
  {
    EcbOne(e, c);
    KeyOfBlock(e, inc, c, p, h);
    hide *;
    assert buf[..16][p..p + h] == buf[p..p + h];
  }

  lemma EcbOne<Y(!new)>(e: seq<Y> -> seq<Y>, c: seq<Y>)
    requires OnBlocks(e) && |c| == 16
    ensures BlockChaining.Ecb(e, c) == e(c)
  {
    EcbSnoc(e, [], c);
    assert [] + c == c && [] + e(c) == e(c);
  }

  // Finishes the block that is in use.
  method Head<Y(!new)>(xor: (Y, Y) -> Y, ghost inc: seq<Y> -> seq<Y>, ctx: ModeContext<Y>, ibuf: array<Y>, obuf: array<Y>, len: nat, cbuf: array<Y>,
                       buf: array<Y>, p: nat) returns (h: nat, ok: bool)
    requires ctx.Valid() && OnBlocks(inc) && cbuf.Length == 16 && BUFFER_LENGTH == buf.Length && 0 < p <= 16
    requires len <= ibuf.Length && len <= obuf.Length && buf != ibuf && buf != obuf && buf != cbuf && cbuf != obuf
    modifies obuf, buf
    ensures ok == ctx.keyed && h == (if len <= 16 - p then len else 16 - p)
    ensures obuf[..] == if ok then Stored(old(obuf[..]), 0, Output(xor, ctx.cipher, inc, Counter(cbuf[..], p), old(ibuf[0..h]))) else old(obuf[..])
  {
    hide Stored, Zip, BlockChaining.Ecb, KeyStream;
    h := if len <= 16 - p then len else 16 - p;
    ghost var c := cbuf[..];
    StoredFront(buf[..], 0, c);
    assert buf[..0] + c == c;
    StoreBlock(buf, 0, cbuf[..]);
    ok := EncryptBuffer(ctx, buf, 16);
    if ok {
      HeadKey(ctx.cipher, inc, c, p, h, buf[..]);
      XorSome(xor, ibuf, obuf, 0, buf, p, h);
    }
  }

  // The output of the head and of the main loop together
  lemma Joined<Y(!new)>(xor: (Y, Y) -> Y, e: seq<Y> -> seq<Y>, inc: seq<Y> -> seq<Y>, c: seq<Y>, p: nat, out0: seq<Y>, ibuf: seq<Y>, h: nat, len: nat)
    requires OnBlocks(e) && OnBlocks(inc) && |c| == 16 && 0 < p && p + h == 16 && h < len <= |ibuf| && len <= |out0|
    ensures var s, t := Counter(c, p), Counter(inc(c), 0);
            var head := Stored(out0, 0, Output(xor, e, inc, s, ibuf[0..h]));
            && Stored(head, h, Output(xor, e, inc, t, ibuf[h..len])) == Stored(out0, 0, Output(xor, e, inc, s, ibuf[..len]))
            && head[h..len] == out0[h..len]
            && After(inc, s, len) == After(inc, t, len - h)
  {
    var s, t := Counter(c, p), Counter(inc(c), 0);
    NextCounter(xor, e, inc, c, p, ibuf[..len], h);
    assert ibuf[..len][..h] == ibuf[0..h] && ibuf[..len][h..] == ibuf[h..len];
    StoredMore(out0, 0, Output(xor, e, inc, s, ibuf[0..h]), Output(xor, e, inc, t, ibuf[h..len]));
  }

  lemma WithinBlock<Y(!new)>(inc: seq<Y> -> seq<Y>, c: seq<Y>, p: nat, n: nat)
    requires OnBlocks(inc) && |c| == 16 && p + n <= 16 && (p == 0 ==> n == 0)
    ensures After(inc, Counter(c, p), n) == Counter(c, p + n)
  {
    assert Iterate(inc, 0, c) == c;
  }

  // The main loop after the head, which has completed the block at c.
  method AfterHead<Y(!new)>(xor: (Y, Y) -> Y, xor32: (Four<Y>, Four<Y>) -> Four<Y>, aligned: bool, inc: seq<Y> -> seq<Y>, ctx: ModeContext<Y>,
                            ghost ib: seq<Y>, ghost out0: seq<Y>, ghost p: nat,
                            ibuf: array<Y>, obuf: array<Y>, h: nat, len: nat, cbuf: array<Y>, buf: array<Y>) returns (b_pos: nat)
    requires ctx.Valid() && OnBlocks(inc) && WordwiseXor(xor, xor32) && cbuf.Length == 16 && BUFFER_LENGTH == buf.Length && ctx.keyed
    requires 0 < p && p + h == 16 && h < len <= ibuf.Length == |ib| && len <= obuf.Length == |out0|
    requires buf != ibuf && buf != obuf && buf != cbuf && cbuf != ibuf && cbuf != obuf
    requires obuf[..] == Stored(out0, 0, Output(xor, ctx.cipher, inc, Counter(cbuf[..], p), ib[0..h]))
    requires if ibuf == obuf then ib == out0 else ibuf[..] == ib
    modifies obuf, cbuf, buf
    ensures obuf[..] == Stored(out0, 0, Output(xor, ctx.cipher, inc, Counter(old(cbuf[..]), p), ib[..len]))
    ensures Counter(cbuf[..], b_pos) == After(inc, Counter(old(cbuf[..]), p), len)
  {
    Joined(xor, ctx.cipher, inc, cbuf[..], p, out0, ib, h, len);
    hide Stored, Output, After, WordwiseXor;
    Increment(inc, cbuf);
    assert ibuf[h..len] == ib[h..len];
    var ok: bool;
    b_pos, ok := MainLoop(xor, xor32, aligned, inc, ctx, ibuf, obuf, h, len, cbuf, buf);
  }

  // The output and the final state are those of the byte-by-byte definition, from any position.
  method CtrCrypt<Y(0, !new)>(xor: (Y, Y) -> Y, xor32: (Four<Y>, Four<Y>) -> Four<Y>, aligned: bool, inc: seq<Y> -> seq<Y>, ctx: ModeContext<Y>,
                              ibuf: array<Y>, obuf: array<Y>, len: nat, cbuf: array<Y>) returns (ok: bool)
    requires ctx.Valid() && ctx.position <= 16 && OnBlocks(inc) && WordwiseXor(xor, xor32)
    requires cbuf.Length == 16 && cbuf != ibuf && cbuf != obuf && len <= ibuf.Length && len <= obuf.Length
    modifies ctx, obuf, cbuf
    ensures ok == (ctx.keyed || (old(ctx.position) == 0 && len == 0))
    ensures ok ==> var s := Counter(old(cbuf[..]), old(ctx.position));
                   && obuf[..] == Stored(old(obuf[..]), 0, Output(xor, ctx.cipher, inc, s, old(ibuf[..len])))
                   && Counter(cbuf[..], ctx.position) == After(inc, s, len)
    ensures !ok ==> obuf[..] == old(obuf[..]) && ctx.position == old(ctx.position)
    ensures !ok && ctx.position > 0 ==> cbuf[..] == old(cbuf[..])
    ensures !ok && ctx.position == 0 ==>
      cbuf[..] == After(inc, Counter(old(cbuf[..]), 0), if len > BUFFER_LENGTH then BUFFER_LENGTH else len).block
  {
    var buf := new Y[BUFFER_LENGTH];
    var b_pos, h := ctx.position, 0;
    ghost var ib, out0, p := ibuf[..], obuf[..], ctx.position;
    hide Stored, Output, After, WordwiseXor, OnBlocks;
    if b_pos != 0 {
      h, ok := Head(xor, inc, ctx, ibuf, obuf, len, cbuf, buf, b_pos);
      if !ok {
        return;
      }
      b_pos := b_pos + h;
      if h == len {
        WithinBlock(inc, cbuf[..], p, h);
        assert ib[0..h] == ib[..len];
      } else {
        b_pos := AfterHead(xor, xor32, aligned, inc, ctx, ib, out0, p, ibuf, obuf, h, len, cbuf, buf);
      }
    } else {
      assert ib[0..len] == ib[..len];
      b_pos, ok := MainLoop(xor, xor32, aligned, inc, ctx, ibuf, obuf, 0, len, cbuf, buf);
      if !ok {
        return;
      }
    }
    ctx.position := b_pos;
    return true;
  }
}
