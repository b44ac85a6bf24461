/**
  aes_cfb_encrypt, aes_cfb_decrypt and aes_ofb_crypt of aes_modes.c: three functions of one shape,
  which finish a partial block, take whole blocks (a word at a time when the buffers are aligned,
  else a byte at a time), and start another partial block.  They are one method here, with the
  assignments that differ as parameters, proved to refine the byte machine for every start position
  and length, also in place.
*/
module StreamModes {
  import opened Sequences
  import opened Blocks
  import opened ModeContexts
  import opened StreamMachine

  // v is the block of s after it has been encrypted, with p of its bytes used.
  ghost predicate InBlock<Y(!new)>(e: seq<Y> -> seq<Y>, s: Stream<Y>, v: seq<Y>, p: nat) {
    && |v| == 16 && s.Valid() && p <= 16
    && (p == 0 ==> s.pos == 0 && v == e(s.iv))
    && (0 < p < 16 ==> s == Stream(v, p))
    && (p == 16 ==> s == Stream(v, 0))
  }

  lemma InBlockStep<Y(!new)>(o: Ops<Y>, e: seq<Y> -> seq<Y>, s: Stream<Y>, v: seq<Y>, p: nat, x: Y)
    requires OnBlocks(e) && InBlock(e, s, v, p) && p < 16
    ensures InBlock(e, Step(o, e, s, x), v[p := o.kept(v[p], x)], p + 1)
    ensures OutByte(o, e, s, x) == o.out(v[p], x)
  {
  }

  // One call: the mode, the block function, the start state, the input, and the output buffer's
  // content before the call.
  datatype Call<!Y(!new)> = Call(o: Ops<Y>, e: seq<Y> -> seq<Y>, s0: Stream<Y>, input: seq<Y>, out0: seq<Y>) {
    ghost predicate Valid() {
      OnBlocks(e) && s0.Valid() && |input| <= |out0|
    }

    // The machine after cnt bytes
    function After(cnt: nat): (s: Stream<Y>)
      requires Valid() && cnt <= |input|
      ensures s.Valid()
    {
      Run(o, e, s0, input[..cnt])
    }

    // The output buffer after cnt bytes
    function Out(cnt: nat): (out: seq<Y>)
      requires Valid() && cnt <= |input|
      ensures |out| == |out0|
    {
      Output(o, e, s0, input[..cnt]) + out0[cnt..]
    }

    // cnt bytes are done, and the rest of the input is still in its buffer.
    ghost predicate Done(cnt: nat, ibuf: seq<Y>, obuf: seq<Y>) {
      && Valid() && cnt <= |input| <= |ibuf|
      && obuf == Out(cnt)
      && forall j :: cnt <= j < |input| ==> ibuf[j] == input[j]
    }

    ghost predicate InBlockAt(cnt: nat, v: seq<Y>, p: nat) {
      Valid() && cnt <= |input| && InBlock(e, After(cnt), v, p)
    }
  }

  lemma Overwrite<T>(done: seq<T>, out0: seq<T>, n: nat, y: T)
    requires |done| == n < |out0|
    ensures (done + out0[n..])[n := y] == (done + [y]) + out0[n + 1..]
  {
  }

  lemma OneMore<Y(!new)>(c: Call<Y>, cnt: nat)
    requires c.Valid() && cnt < |c.input|
    ensures c.After(cnt + 1) == Step(c.o, c.e, c.After(cnt), c.input[cnt])
    ensures c.Out(cnt + 1) == c.Out(cnt)[cnt := OutByte(c.o, c.e, c.After(cnt), c.input[cnt])]
  {
    TakeOne(c.input, cnt);
    RunSnoc(c.o, c.e, c.s0, c.input[..cnt], c.input[cnt]);
    Overwrite(Output(c.o, c.e, c.s0, c.input[..cnt]), c.out0, cnt, OutByte(c.o, c.e, c.After(cnt), c.input[cnt]));
  }

  // Writes one output byte and one byte of the block, which may have been computed earlier.
  method StoreBytes<Y(!new)>(ghost c: Call<Y>, ghost ibuf: array<Y>, obuf: array<Y>, cnt: nat, iv: array<Y>, p: nat, y: Y, z: Y)
    requires iv != ibuf && iv != obuf && iv.Length == 16 && p < 16 && cnt < |c.input|
    requires c.Done(cnt, ibuf[..], obuf[..]) && c.InBlockAt(cnt, iv[..], p)
    requires y == c.o.out(iv[p], c.input[cnt]) && z == c.o.kept(iv[p], c.input[cnt])
    modifies obuf, iv
    ensures c.Done(cnt + 1, ibuf[..], obuf[..]) && c.InBlockAt(cnt + 1, iv[..], p + 1)
    ensures iv[..] == old(iv[..])[p := z]
  {
    OneMore(c, cnt);
    InBlockStep(c.o, c.e, c.After(cnt), iv[..], p, c.input[cnt]);
    obuf[cnt] := y;
    iv[p] := z;
  }

  // One byte of the loops: an output byte and iv[b_pos++] from an input byte.
  method OneByte<Y(!new)>(o: Ops<Y>, ghost c: Call<Y>, ibuf: array<Y>, obuf: array<Y>, cnt: nat, iv: array<Y>, p: nat)
    requires iv != ibuf && iv != obuf && iv.Length == 16 && p < 16 && cnt < |c.input| && o == c.o
    requires c.Done(cnt, ibuf[..], obuf[..]) && c.InBlockAt(cnt, iv[..], p)
    modifies obuf, iv
    ensures c.Done(cnt + 1, ibuf[..], obuf[..]) && c.InBlockAt(cnt + 1, iv[..], p + 1)
  {
    var x, k := ibuf[cnt], iv[p];
    StoreBytes(c, ibuf, obuf, cnt, iv, p, o.out(k, x), o.kept(k, x));
  }

  // The aligned path reads and writes 32-bit words; w.out and w.kept are its assignments, on the
  // bytes of the words.
  datatype WordOps<!Y(!new)> = WordOps(out: (Four<Y>, Four<Y>) -> Four<Y>, kept: (Four<Y>, Four<Y>) -> Four<Y>)

  ghost predicate Bytewise<Y(!new)>(o: Ops<Y>, word: WordOps<Y>) {
    forall k, x :: word.out(k, x) == k.Zip(o.out, x) && word.kept(k, x) == k.Zip(o.kept, x)
  }

  method WordBytes<Y(!new)>(ghost o: Ops<Y>, word: WordOps<Y>, k: seq<Y>, x: seq<Y>) returns (ys: seq<Y>, zs: seq<Y>)
    requires |k| == |x| == 4 && Bytewise(o, word)
    ensures |ys| == |zs| == 4 && forall j :: 0 <= j < 4 ==> ys[j] == o.out(k[j], x[j]) && zs[j] == o.kept(k[j], x[j])
  {
    var kw, xw := Four(k[0], k[1], k[2], k[3]), Four(x[0], x[1], x[2], x[3]);
    ys, zs := word.out(kw, xw).Bytes(), word.kept(kw, xw).Bytes();
  }

  lemma InputSlice<Y(!new)>(c: Call<Y>, cnt: nat, ibuf: seq<Y>, obuf: seq<Y>, n: nat)
    requires c.Done(cnt, ibuf, obuf) && cnt + n <= |c.input|
    ensures ibuf[cnt..cnt + n] == c.input[cnt..cnt + n]
  {
  }

  method OneWord<Y(!new)>(word: WordOps<Y>, ghost c: Call<Y>, ibuf: array<Y>, obuf: array<Y>, cnt: nat,
                          iv: array<Y>, p: nat)
    requires iv != ibuf && iv != obuf && iv.Length == 16 && p + 4 <= 16 && cnt + 4 <= |c.input| <= ibuf.Length && Bytewise(c.o, word)
    requires c.Done(cnt, ibuf[..], obuf[..]) && c.InBlockAt(cnt, iv[..], p)
    modifies obuf, iv
    ensures c.Done(cnt + 4, ibuf[..], obuf[..]) && c.InBlockAt(cnt + 4, iv[..], p + 4)
  {
    hide Bytewise, Call.Done, Call.InBlockAt;
    InputSlice(c, cnt, ibuf[..], obuf[..], 4);
    var k, x := iv[p..p + 4], ibuf[cnt..cnt + 4];
    var ys, zs := WordBytes(c.o, word, k, x);
    for j := 0 to 4
      invariant c.Done(cnt + j, ibuf[..], obuf[..]) && c.InBlockAt(cnt + j, iv[..], p + j)
      invariant forall i :: j <= i < 4 ==> iv[p + i] == k[i]
    {
      assert x[j] == c.input[cnt + j];
      StoreBytes(c, ibuf, obuf, cnt + j, iv, p + j, ys[j], zs[j]);
    }
  }

  // A whole block, by words or by bytes.
  method OneBlock<Y(!new)>(o: Ops<Y>, word: WordOps<Y>, aligned: bool, ghost c: Call<Y>,
                           ibuf: array<Y>, obuf: array<Y>, cnt: nat, iv: array<Y>)
    requires iv != ibuf && iv != obuf && iv.Length == 16 && cnt + 16 <= |c.input| <= ibuf.Length && o == c.o && Bytewise(o, word)
    requires c.Done(cnt, ibuf[..], obuf[..]) && c.InBlockAt(cnt, iv[..], 0)
    modifies obuf, iv
    ensures c.Done(cnt + 16, ibuf[..], obuf[..]) && c.InBlockAt(cnt + 16, iv[..], 16)
  {
    hide Call.Done, Call.InBlockAt, Bytewise;
    if aligned {
      for w := 0 to 4
        invariant c.Done(cnt + 4 * w, ibuf[..], obuf[..]) && c.InBlockAt(cnt + 4 * w, iv[..], 4 * w)
      {
        OneWord(word, c, ibuf, obuf, cnt + 4 * w, iv, 4 * w);
      }
    } else {
      for j := 0 to 16
        invariant c.Done(cnt + j, ibuf[..], obuf[..]) && c.InBlockAt(cnt + j, iv[..], j)
      {
        OneByte(o, c, ibuf, obuf, cnt + j, iv, j);
      }
    }
  }

  // while (b_pos < AES_BLOCK_SIZE && cnt < len)
  method SomeBytes<Y(!new)>(o: Ops<Y>, ghost c: Call<Y>, ibuf: array<Y>, obuf: array<Y>, len: nat, iv: array<Y>, cnt0: nat, p0: nat)
    returns (cnt: nat, p: nat)
    requires iv != ibuf && iv != obuf && iv.Length == 16 && p0 <= 16 && cnt0 <= len == |c.input| && o == c.o
    requires c.Done(cnt0, ibuf[..], obuf[..]) && c.InBlockAt(cnt0, iv[..], p0)
    modifies obuf, iv
    ensures cnt0 <= cnt <= len && p0 <= p <= 16 && cnt - cnt0 == p - p0 && (cnt == len || p == 16)
    ensures c.Done(cnt, ibuf[..], obuf[..]) && c.InBlockAt(cnt, iv[..], p)
  {
    hide Call.Done, Call.InBlockAt;
    cnt, p := cnt0, p0;
    while p < 16 && cnt < len
      invariant cnt0 <= cnt <= len && p0 <= p <= 16 && cnt - cnt0 == p - p0
      invariant c.Done(cnt, ibuf[..], obuf[..]) && c.InBlockAt(cnt, iv[..], p)
    {
      OneByte(o, c, ibuf, obuf, cnt, iv, p);
      cnt, p := cnt + 1, p + 1;
    }
  }

  // Between blocks or within one that has been started
  ghost predicate Between<Y(!new)>(c: Call<Y>, cnt: nat, ibuf: seq<Y>, obuf: seq<Y>, v: seq<Y>, b_pos: nat) {
    c.Done(cnt, ibuf, obuf) && c.After(cnt) == Stream(v, b_pos)
  }

  // b_pos = (b_pos == AES_BLOCK_SIZE ? 0 : b_pos)
  lemma BlockEnds<Y(!new)>(c: Call<Y>, cnt: nat, ibuf: seq<Y>, obuf: seq<Y>, v: seq<Y>, p: nat)
    requires c.Done(cnt, ibuf, obuf) && |v| == 16 && 0 < p <= 16
    ensures c.InBlockAt(cnt, v, p) <==> Between(c, cnt, ibuf, obuf, v, if p == 16 then 0 else p)
  {
  }

  // aes_encrypt(iv, iv, ctx) at the start of a block
  method NextBlock<Y(!new)>(ctx: ModeContext<Y>, ghost c: Call<Y>, ghost cnt: nat, ghost ibuf: array<Y>, ghost obuf: array<Y>, iv: array<Y>)
    returns (ok: bool)
    requires iv.Length == 16 && iv != ibuf && iv != obuf && ctx.Valid() && ctx.cipher == c.e
    requires Between(c, cnt, ibuf[..], obuf[..], iv[..], 0)
    modifies iv
    ensures ok == ctx.keyed
    ensures if ok then c.Done(cnt, ibuf[..], obuf[..]) && c.InBlockAt(cnt, iv[..], 0) else Between(c, cnt, ibuf[..], obuf[..], iv[..], 0)
  {
    BlockStarts(c, cnt, ibuf[..], obuf[..], iv[..]);
    hide *;
    ok := ctx.CryptInPlace(iv);
  }

  lemma BlockStarts<Y(!new)>(c: Call<Y>, cnt: nat, ibuf: seq<Y>, obuf: seq<Y>, v: seq<Y>)
    requires Between(c, cnt, ibuf, obuf, v, 0)
    ensures |v| == |c.e(v)| == 16 && c.Done(cnt, ibuf, obuf) && c.InBlockAt(cnt, c.e(v), 0)
  {
  }

  method HeadBytes<Y(!new)>(o: Ops<Y>, ghost c: Call<Y>, ibuf: array<Y>, obuf: array<Y>, len: nat, iv: array<Y>, position: nat)
    returns (cnt: nat, b_pos: nat)
    requires iv.Length == 16 && iv != ibuf && iv != obuf && len == |c.input| && o == c.o && position <= 16
    requires Between(c, 0, ibuf[..], obuf[..], iv[..], Wrap(position))
    modifies obuf, iv
    ensures cnt == (if len <= Left(position) then len else Left(position)) && b_pos < 16 && (cnt < len ==> b_pos == 0)
    ensures Between(c, cnt, ibuf[..], obuf[..], iv[..], b_pos)
  {
    cnt, b_pos := 0, position;
    if b_pos != 0 {
      BlockEnds(c, 0, ibuf[..], obuf[..], iv[..], b_pos);
      cnt, b_pos := SomeBytes(o, c, ibuf, obuf, len, iv, 0, b_pos);
      BlockEnds(c, cnt, ibuf[..], obuf[..], iv[..], b_pos);
      b_pos := if b_pos == 16 then 0 else b_pos;
    }
  }

  method WholeBlocks<Y(!new)>(o: Ops<Y>, word: WordOps<Y>, aligned: bool, ctx: ModeContext<Y>,
                              ghost c: Call<Y>, ibuf: array<Y>, obuf: array<Y>, len: nat, iv: array<Y>, cnt0: nat, b_pos: nat)
    returns (cnt: nat, ok: bool)
    requires iv.Length == 16 && iv != ibuf && iv != obuf && len == |c.input| <= ibuf.Length && o == c.o && Bytewise(o, word)
    requires ctx.Valid() && ctx.cipher == c.e && cnt0 <= len && (cnt0 < len ==> b_pos == 0)
    requires Between(c, cnt0, ibuf[..], obuf[..], iv[..], b_pos)
    modifies obuf, iv
    ensures cnt0 <= cnt <= len && (cnt < len ==> b_pos == 0) && if ok then len < cnt + 16 else cnt == cnt0 < len
    ensures (!ok ==> !ctx.keyed) && (!ctx.keyed ==> cnt == cnt0)
    ensures Between(c, cnt, ibuf[..], obuf[..], iv[..], b_pos)
  {
    hide Call.Done, Call.InBlockAt, Between, Bytewise, OnBlocks, ModeContext.Valid;
    cnt := cnt0;
    while cnt + 16 <= len
      invariant cnt0 <= cnt <= len && (cnt < len ==> b_pos == 0) && (!ctx.keyed ==> cnt == cnt0)
      invariant Between(c, cnt, ibuf[..], obuf[..], iv[..], b_pos)
    {
      assert b_pos == 0;
      ok := NextBlock(ctx, c, cnt, ibuf, obuf, iv);
      if !ok {
        return;
      }
      OneBlock(o, word, aligned, c, ibuf, obuf, cnt, iv);
      cnt := cnt + 16;
      BlockEnds(c, cnt, ibuf[..], obuf[..], iv[..], 16);
    }
    ok := true;
  }

  method TailBytes<Y(!new)>(o: Ops<Y>, ctx: ModeContext<Y>, ghost c: Call<Y>, ibuf: array<Y>, obuf: array<Y>, len: nat, iv: array<Y>,
                            cnt0: nat, position: nat)
    returns (cnt: nat, b_pos: nat, ok: bool)
    requires iv.Length == 16 && iv != ibuf && iv != obuf && len == |c.input| && o == c.o
    requires ctx.Valid() && ctx.cipher == c.e && position < 16 && cnt0 <= len && (cnt0 < len ==> position == 0)
    requires Between(c, cnt0, ibuf[..], obuf[..], iv[..], position)
    modifies obuf, iv
    ensures b_pos < 16 && ok == (ctx.keyed || cnt0 == len) && cnt == if ok then len else cnt0
    ensures Between(c, cnt, ibuf[..], obuf[..], iv[..], b_pos)
  {
    hide Call.Done, Call.InBlockAt, Between, OnBlocks, ModeContext.Valid;
    cnt, b_pos := cnt0, position;
    while cnt < len
      invariant cnt0 <= cnt <= len && b_pos < 16 && (cnt < len ==> b_pos == 0) && (!ctx.keyed ==> cnt == cnt0)
      invariant Between(c, cnt, ibuf[..], obuf[..], iv[..], b_pos)
    {
      ok := NextBlock(ctx, c, cnt, ibuf, obuf, iv);
      if !ok {
        return;
      }
      cnt, b_pos := SomeBytes(o, c, ibuf, obuf, len, iv, cnt, 0);
      BlockEnds(c, cnt, ibuf[..], obuf[..], iv[..], b_pos);
      b_pos := if b_pos == 16 then 0 else b_pos;
    }
    ok := true;
  }

  // The bytes that can still be taken before the block function is needed.
  function Left(position: nat): nat
    requires position <= 16
  {
    if position == 0 then 0 else 16 - position
  }

  lemma Start<Y(!new)>(c: Call<Y>, ibuf: seq<Y>)
    requires c.Valid() && |c.input| <= |ibuf| && c.input == ibuf[..|c.input|]
    ensures Between(c, 0, ibuf, c.out0, c.s0.iv, c.s0.pos)
  {
    assert c.input[..0] == [];
  }

  lemma Finish<Y(!new)>(c: Call<Y>, cnt: nat, ibuf: seq<Y>, obuf: seq<Y>, v: seq<Y>, b_pos: nat)
    requires Between(c, cnt, ibuf, obuf, v, b_pos)
    ensures cnt <= |c.input| && c.Valid()
    ensures obuf == Output(c.o, c.e, c.s0, c.input[..cnt]) + c.out0[cnt..] && Run(c.o, c.e, c.s0, c.input[..cnt]) == Stream(v, b_pos)
  {
  }

  method StreamCrypt<Y(!new)>(o: Ops<Y>, word: WordOps<Y>, aligned: bool,
                              ctx: ModeContext<Y>, ibuf: array<Y>, obuf: array<Y>, len: nat, iv: array<Y>) returns (ok: bool)
    requires ctx.Valid() && ctx.position <= 16 && Bytewise(o, word)
    requires iv.Length == 16 && iv != ibuf && iv != obuf && len <= ibuf.Length && len <= obuf.Length
    modifies ctx, obuf, iv
    ensures ok == (ctx.keyed || len <= Left(old(ctx.position)))
    ensures var s0 := Stream(old(iv[..]), Wrap(old(ctx.position)));
            var input := old(ibuf[..if ctx.keyed || len <= Left(ctx.position) then len else Left(ctx.position)]);
            var s := Run(o, ctx.cipher, s0, input);
            && obuf[..] == Output(o, ctx.cipher, s0, input) + old(obuf[..])[|input|..]
            && iv[..] == s.iv
            && ctx.position == if ok then s.pos else old(ctx.position)
  {
    // A stored position of 16, which aes_ctr_crypt may leave, is the end of the block like 0.
    ghost var c := Call(o, ctx.cipher, Stream(iv[..], Wrap(ctx.position)), ibuf[..len], obuf[..]);
    ghost var input := ibuf[..if ctx.keyed || len <= Left(ctx.position) then len else Left(ctx.position)];
    Start(c, ibuf[..]);
    hide *;
    var cnt, b_pos := HeadBytes(o, c, ibuf, obuf, len, iv, ctx.position);
    cnt, ok := WholeBlocks(o, word, aligned, ctx, c, ibuf, obuf, len, iv, cnt, b_pos);
    if ok {
      cnt, b_pos, ok := TailBytes(o, ctx, c, ibuf, obuf, len, iv, cnt, b_pos);
    }
    Finish(c, cnt, ibuf[..], obuf[..], iv[..], b_pos);
    assert c.input[..cnt] == input;
    if ok {
      ctx.position := b_pos;
    }
  }
}
