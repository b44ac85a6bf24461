/**
  aes_ecb_encrypt, aes_ecb_decrypt, aes_cbc_encrypt and aes_cbc_decrypt of aes_modes.c, on buffers
  that may be one and the same.  The context holds the block function of its direction.
*/
module BlockModes {
  import opened Blocks
  import opened ModeContexts
  import opened BlockChaining
  import opened BufferXor
  import opened BufferProgress

  // A call between blocks: the first at bytes of the input are done, giving done.
  ghost predicate Between<Y>(input: seq<Y>, out0: seq<Y>, ibuf: seq<Y>, obuf: seq<Y>, done: seq<Y>, at: nat) {
    at == |done| && at % 16 == 0 && Done(done, input, out0, ibuf, obuf)
  }

  lemma NextBlock<Y>(input: seq<Y>, out0: seq<Y>, ibuf: seq<Y>, obuf: seq<Y>, done: seq<Y>, at: nat)
    requires Between(input, out0, ibuf, obuf, done, at) && at < |input| && |input| % 16 == 0
    ensures at + 16 <= |input| <= |ibuf| && |input| <= |obuf|
    ensures ibuf[at..at + 16] == input[at..at + 16]
    ensures input[..at + 16] == input[..at] + input[at..at + 16]
    ensures forall b: seq<Y> :: |b| == 16 ==>
      && Between(input, out0, ibuf, Stored(obuf, at, b), done + b, at + 16)
      && (ibuf == obuf ==> Between(input, out0, Stored(obuf, at, b), Stored(obuf, at, b), done + b, at + 16))
  {
    assert ibuf[at..|input|][..16] == ibuf[at..at + 16];
    assert input[at..][..16] == input[at..at + 16];
    forall b: seq<Y> | |b| == 16
      ensures Between(input, out0, ibuf, Stored(obuf, at, b), done + b, at + 16)
      ensures ibuf == obuf ==> Between(input, out0, Stored(obuf, at, b), Stored(obuf, at, b), done + b, at + 16)
    {
      DoneStep(done, input, out0, ibuf, obuf, b);
    }
  }

  lemma Start<Y>(input: seq<Y>, out0: seq<Y>, ibuf: seq<Y>)
    requires |input| <= |ibuf| && |input| <= |out0| && input == ibuf[..|input|]
    ensures Between(input, out0, ibuf, out0, [], 0) && input[..0] == []
  {
  }

  lemma Finish<Y>(input: seq<Y>, out0: seq<Y>, ibuf: seq<Y>, obuf: seq<Y>, done: seq<Y>, at: nat)
    requires Between(input, out0, ibuf, obuf, done, at)
    ensures at <= |input| <= |out0| && obuf == done + out0[at..] && (at == |input| ==> input[..at] == input)
  {
  }

  // The state of the ECB loop, and one round of it, on the values of the buffers

  ghost predicate EcbTo<Y(!new)>(e: seq<Y> -> seq<Y>, input: seq<Y>, out0: seq<Y>, ibuf: seq<Y>, obuf: seq<Y>, at: nat) {
    && OnBlocks(e) && at <= |input| && |input| % 16 == 0 && at % 16 == 0
    && Between(input, out0, ibuf, obuf, BlockChaining.Ecb(e, input[..at]), at)
  }

  lemma EcbNext<Y(!new)>(e: seq<Y> -> seq<Y>, input: seq<Y>, out0: seq<Y>, ibuf: seq<Y>, obuf: seq<Y>, at: nat)
    requires EcbTo(e, input, out0, ibuf, obuf, at) && at < |input|
    ensures at + 16 <= |input| <= |ibuf| && |input| <= |obuf|
    ensures var b := e(ibuf[at..at + 16]);
            && |b| == 16
            && EcbTo(e, input, out0, ibuf, Stored(obuf, at, b), at + 16)
            && (ibuf == obuf ==> EcbTo(e, input, out0, Stored(obuf, at, b), Stored(obuf, at, b), at + 16))
  {
    hide Between, BlockChaining.Ecb, Stored;
    NextBlock(input, out0, ibuf, obuf, BlockChaining.Ecb(e, input[..at]), at);
    EcbSnoc(e, input[..at], input[at..at + 16]);
  }

  lemma EcbStart<Y(!new)>(e: seq<Y> -> seq<Y>, input: seq<Y>, out0: seq<Y>, ibuf: seq<Y>)
    requires OnBlocks(e) && |input| % 16 == 0 && |input| <= |ibuf| && |input| <= |out0| && input == ibuf[..|input|]
    ensures EcbTo(e, input, out0, ibuf, out0, 0)
  {
    Start(input, out0, ibuf);
  }

  lemma EcbEnd<Y(!new)>(e: seq<Y> -> seq<Y>, input: seq<Y>, out0: seq<Y>, ibuf: seq<Y>, obuf: seq<Y>)
    requires EcbTo(e, input, out0, ibuf, obuf, |input|)
    ensures |input| <= |out0| && obuf == BlockChaining.Ecb(e, input) + out0[|input|..]
  {
    hide Between, BlockChaining.Ecb;
    Finish(input, out0, ibuf, obuf, BlockChaining.Ecb(e, input[..|input|]), |input|);
  }

  method Ecb<Y(!new)>(ctx: ModeContext<Y>, ibuf: array<Y>, obuf: array<Y>, len: nat) returns (ok: bool)
    requires ctx.Valid() && len <= ibuf.Length && len <= obuf.Length
    modifies obuf
    ensures ok == (len % 16 == 0 && (ctx.keyed || len == 0))
    ensures obuf[..] == if ok then BlockChaining.Ecb(ctx.cipher, old(ibuf[..len])) + old(obuf[..])[len..] else old(obuf[..])
  {
    if len % 16 != 0 {
      return false;
    }
    ghost var input, out0 := ibuf[..len], obuf[..];
    EcbStart(ctx.cipher, input, out0, ibuf[..]);
    var at := 0;
    hide *;
    while at < len
      invariant at <= len && (ctx.keyed || (at == 0 && obuf[..] == out0))
      invariant EcbTo(ctx.cipher, input, out0, ibuf[..], obuf[..], at)
    {
      EcbNext(ctx.cipher, input, out0, ibuf[..], obuf[..], at);
      ok := ctx.Crypt(ibuf, at, obuf, at);
      if !ok {
        return;
      }
      at := at + 16;
    }
    EcbEnd(ctx.cipher, input, out0, ibuf[..], obuf[..]);
    return true;
  }

  method CbcEncryptBlock<Y(!new)>(xor: (Y, Y) -> Y, xor32: (Four<Y>, Four<Y>) -> Four<Y>, aligned: bool,
                                  ctx: ModeContext<Y>, ibuf: array<Y>, obuf: array<Y>, at: nat, iv: array<Y>) returns (ok: bool)
    requires ctx.Valid() && WordwiseXor(xor, xor32) && at + 16 <= ibuf.Length && at + 16 <= obuf.Length
    requires iv.Length == 16 && iv != ibuf && iv != obuf
    modifies obuf, iv
    ensures ok == ctx.keyed
    ensures var v := Zip(xor, old(iv[..]), old(ibuf[at..at + 16]));
            && iv[..] == (if ok then ctx.cipher(v) else v)
            && obuf[..] == if ok then Stored(old(obuf[..]), at, ctx.cipher(v)) else old(obuf[..])
  {
    ghost var v := Zip(xor, iv[..], ibuf[at..at + 16]);
    StoredAll(iv[..], v);
    StoredAll(v, ctx.cipher(v));
    hide Stored, Zip, WordwiseXor;
    XorBlock(xor, xor32, aligned, iv, 0, iv, 0, ibuf, at);
    ok := ctx.Crypt(iv, 0, iv, 0);
    if ok {
      StoreBlock(obuf, at, iv[..]);
    }
  }

  method CbcDecryptBlock<Y(!new)>(xor: (Y, Y) -> Y, xor32: (Four<Y>, Four<Y>) -> Four<Y>, aligned: bool,
                                  ctx: ModeContext<Y>, ibuf: array<Y>, obuf: array<Y>, at: nat, iv: array<Y>) returns (ok: bool)
    requires ctx.Valid() && WordwiseXor(xor, xor32) && at + 16 <= ibuf.Length && at + 16 <= obuf.Length
    requires iv.Length == 16 && iv != ibuf && iv != obuf
    modifies obuf, iv
    ensures ok == ctx.keyed
    ensures var x := old(ibuf[at..at + 16]);
            && iv[..] == (if ok then x else old(iv[..]))
            && obuf[..] == if ok then Stored(old(obuf[..]), at, Zip(xor, ctx.cipher(x), old(iv[..]))) else old(obuf[..])
  {
    var tmp := ibuf[at..at + 16];
    ghost var y := ctx.cipher(tmp);
    StoredTwice(obuf[..], at, y, Zip(xor, y, iv[..]));
    StoredAll(iv[..], tmp);
    hide Stored, Zip, WordwiseXor;
    ok := ctx.Crypt(ibuf, at, obuf, at);
    if ok {
      XorBlock(xor, xor32, aligned, obuf, at, obuf, at, iv, 0);
      StoreBlock(iv, 0, tmp);
    }
  }

  // The state of the CBC loops, and one round of each: v is the chaining block.

  ghost predicate EncryptedTo<Y(!new)>(xor: (Y, Y) -> Y, e: seq<Y> -> seq<Y>, iv: seq<Y>, input: seq<Y>, out0: seq<Y>,
                                       ibuf: seq<Y>, obuf: seq<Y>, v: seq<Y>, at: nat) {
    && OnBlocks(e) && |iv| == 16 && at <= |input| && |input| % 16 == 0 && at % 16 == 0
    && Between(input, out0, ibuf, obuf, BlockChaining.CbcEncrypt(xor, e, iv, input[..at]), at)
    && v == LastBlock(iv, BlockChaining.CbcEncrypt(xor, e, iv, input[..at]))
  }

  ghost predicate DecryptedTo<Y(!new)>(xor: (Y, Y) -> Y, d: seq<Y> -> seq<Y>, iv: seq<Y>, input: seq<Y>, out0: seq<Y>,
                                       ibuf: seq<Y>, obuf: seq<Y>, v: seq<Y>, at: nat) {
    && OnBlocks(d) && |iv| == 16 && at <= |input| && |input| % 16 == 0 && at % 16 == 0
    && Between(input, out0, ibuf, obuf, BlockChaining.CbcDecrypt(xor, d, iv, input[..at]), at)
    && v == LastBlock(iv, input[..at])
  }

  lemma EncryptNext<Y(!new)>(xor: (Y, Y) -> Y, e: seq<Y> -> seq<Y>, iv: seq<Y>, input: seq<Y>, out0: seq<Y>,
                             ibuf: seq<Y>, obuf: seq<Y>, v: seq<Y>, at: nat)
    requires EncryptedTo(xor, e, iv, input, out0, ibuf, obuf, v, at) && at < |input|
    ensures at + 16 <= |input| <= |ibuf| && |input| <= |obuf| && |v| == 16
    ensures var b := e(Zip(xor, v, ibuf[at..at + 16]));
            && |b| == 16
            && EncryptedTo(xor, e, iv, input, out0, ibuf, Stored(obuf, at, b), b, at + 16)
            && (ibuf == obuf ==> EncryptedTo(xor, e, iv, input, out0, Stored(obuf, at, b), Stored(obuf, at, b), b, at + 16))
  {
    hide Between, BlockChaining.CbcEncrypt, LastBlock, Stored, Zip;
    NextBlock(input, out0, ibuf, obuf, BlockChaining.CbcEncrypt(xor, e, iv, input[..at]), at);
    CbcEncryptSnoc(xor, e, iv, input[..at], input[at..at + 16]);
  }

  lemma DecryptNext<Y(!new)>(xor: (Y, Y) -> Y, d: seq<Y> -> seq<Y>, iv: seq<Y>, input: seq<Y>, out0: seq<Y>,
                             ibuf: seq<Y>, obuf: seq<Y>, v: seq<Y>, at: nat)
    requires DecryptedTo(xor, d, iv, input, out0, ibuf, obuf, v, at) && at < |input|
    ensures at + 16 <= |input| <= |ibuf| && |input| <= |obuf| && |v| == 16
    ensures var x := ibuf[at..at + 16];
            && |d(x)| == 16
            && var b := Zip(xor, d(x), v);
            && DecryptedTo(xor, d, iv, input, out0, ibuf, Stored(obuf, at, b), x, at + 16)
            && (ibuf == obuf ==> DecryptedTo(xor, d, iv, input, out0, Stored(obuf, at, b), Stored(obuf, at, b), x, at + 16))
  {
    hide Between, BlockChaining.CbcDecrypt, LastBlock, Stored, Zip;
    NextBlock(input, out0, ibuf, obuf, BlockChaining.CbcDecrypt(xor, d, iv, input[..at]), at);
    CbcDecryptSnoc(xor, d, iv, input[..at], input[at..at + 16]);
  }

  lemma CbcStart<Y(!new)>(xor: (Y, Y) -> Y, e: seq<Y> -> seq<Y>, iv: seq<Y>, input: seq<Y>, out0: seq<Y>, ibuf: seq<Y>)
    requires OnBlocks(e) && |iv| == 16 && |input| % 16 == 0
    requires |input| <= |ibuf| && |input| <= |out0| && input == ibuf[..|input|]
    ensures EncryptedTo(xor, e, iv, input, out0, ibuf, out0, iv, 0)
    ensures DecryptedTo(xor, e, iv, input, out0, ibuf, out0, iv, 0)
  {
    Start(input, out0, ibuf);
  }

  lemma EncryptEnd<Y(!new)>(xor: (Y, Y) -> Y, e: seq<Y> -> seq<Y>, iv: seq<Y>, input: seq<Y>, out0: seq<Y>,
                            ibuf: seq<Y>, obuf: seq<Y>, v: seq<Y>)
    requires EncryptedTo(xor, e, iv, input, out0, ibuf, obuf, v, |input|)
    ensures var c := BlockChaining.CbcEncrypt(xor, e, iv, input);
            |input| <= |out0| && obuf == c + out0[|input|..] && v == LastBlock(iv, c)
  {
    hide Between, BlockChaining.CbcEncrypt, LastBlock;
    Finish(input, out0, ibuf, obuf, BlockChaining.CbcEncrypt(xor, e, iv, input[..|input|]), |input|);
  }

  lemma DecryptEnd<Y(!new)>(xor: (Y, Y) -> Y, d: seq<Y> -> seq<Y>, iv: seq<Y>, input: seq<Y>, out0: seq<Y>,
                            ibuf: seq<Y>, obuf: seq<Y>, v: seq<Y>)
    requires DecryptedTo(xor, d, iv, input, out0, ibuf, obuf, v, |input|)
    ensures |input| <= |out0| && obuf == BlockChaining.CbcDecrypt(xor, d, iv, input) + out0[|input|..]
    ensures v == LastBlock(iv, input)
  {
    hide Between, BlockChaining.CbcDecrypt, LastBlock;
    Finish(input, out0, ibuf, obuf, BlockChaining.CbcDecrypt(xor, d, iv, input[..|input|]), |input|);
  }

  // On failure the first block of input has been XORed into the chaining block.
  method CbcEncrypt<Y(!new)>(xor: (Y, Y) -> Y, xor32: (Four<Y>, Four<Y>) -> Four<Y>, aligned: bool,
                             ctx: ModeContext<Y>, ibuf: array<Y>, obuf: array<Y>, len: nat, iv: array<Y>) returns (ok: bool)
    requires ctx.Valid() && WordwiseXor(xor, xor32) && len <= ibuf.Length && len <= obuf.Length
    requires iv.Length == 16 && iv != ibuf && iv != obuf
    modifies obuf, iv
    ensures ok == (len % 16 == 0 && (ctx.keyed || len == 0))
    ensures ok ==> var c := BlockChaining.CbcEncrypt(xor, ctx.cipher, old(iv[..]), old(ibuf[..len]));
                   obuf[..] == c + old(obuf[..])[len..] && iv[..] == LastBlock(old(iv[..]), c)
    ensures !ok ==> obuf[..] == old(obuf[..])
    ensures !ok ==> iv[..] == if len % 16 != 0 then old(iv[..]) else Zip(xor, old(iv[..]), old(ibuf[0..16]))
  {
    if len % 16 != 0 {
      return false;
    }
    ghost var input, out0, iv0 := ibuf[..len], obuf[..], iv[..];
    CbcStart(xor, ctx.cipher, iv0, input, out0, ibuf[..]);
    var at := 0;
    hide *;
    while at < len
      invariant at <= len && (ctx.keyed || (at == 0 && iv[..] == iv0 && ibuf[..] == old(ibuf[..]) && obuf[..] == out0))
      invariant EncryptedTo(xor, ctx.cipher, iv0, input, out0, ibuf[..], obuf[..], iv[..], at)
    {
      EncryptNext(xor, ctx.cipher, iv0, input, out0, ibuf[..], obuf[..], iv[..], at);
      ok := CbcEncryptBlock(xor, xor32, aligned, ctx, ibuf, obuf, at, iv);
      if !ok {
        return;
      }
      at := at + 16;
    }
    EncryptEnd(xor, ctx.cipher, iv0, input, out0, ibuf[..], obuf[..], iv[..]);
    return true;
  }

  method CbcDecrypt<Y(!new)>(xor: (Y, Y) -> Y, xor32: (Four<Y>, Four<Y>) -> Four<Y>, aligned: bool,
                             ctx: ModeContext<Y>, ibuf: array<Y>, obuf: array<Y>, len: nat, iv: array<Y>) returns (ok: bool)
    requires ctx.Valid() && WordwiseXor(xor, xor32) && len <= ibuf.Length && len <= obuf.Length
    requires iv.Length == 16 && iv != ibuf && iv != obuf
    modifies obuf, iv
    ensures ok == (len % 16 == 0 && (ctx.keyed || len == 0))
    ensures ok ==> obuf[..] == BlockChaining.CbcDecrypt(xor, ctx.cipher, old(iv[..]), old(ibuf[..len])) + old(obuf[..])[len..]
    ensures ok ==> iv[..] == LastBlock(old(iv[..]), old(ibuf[..len]))
    ensures !ok ==> obuf[..] == old(obuf[..]) && iv[..] == old(iv[..])
  {
    if len % 16 != 0 {
      return false;
    }
    ghost var input, out0, iv0 := ibuf[..len], obuf[..], iv[..];
    CbcStart(xor, ctx.cipher, iv0, input, out0, ibuf[..]);
    var at := 0;
    hide *;
    while at < len
      invariant at <= len && (ctx.keyed || (at == 0 && iv[..] == iv0 && obuf[..] == out0))
      invariant DecryptedTo(xor, ctx.cipher, iv0, input, out0, ibuf[..], obuf[..], iv[..], at)
    {
      DecryptNext(xor, ctx.cipher, iv0, input, out0, ibuf[..], obuf[..], iv[..], at);
      ok := CbcDecryptBlock(xor, xor32, aligned, ctx, ibuf, obuf, at, iv);
      if !ok {
        return;
      }
      at := at + 16;
    }
    DecryptEnd(xor, ctx.cipher, iv0, input, out0, ibuf[..], obuf[..], iv[..]);
    return true;
  }
}
