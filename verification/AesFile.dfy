/**
  encfile and decfile of aesxam.c.  Both keep three blocks in one buffer of 48 bytes, at offsets b1,
  b2 and b3 that are exchanged from block to block.  A file is read as a sequence, with a short read
  only at its end.  What is written is appended to a sequence, and a write fails where the space for
  the output ends: the first failure of fwrite, after any number of bytes.
*/
module AesFile {
  import opened Sequences
  import opened Blocks
  import opened ModeContexts
  import opened BlockChaining
  import opened CiphertextStealing

  // The three offsets, in any order
  predicate Offsets(b1: nat, b2: nat, b3: nat) {
    (b1 == 0 || b1 == 16 || b1 == 32) && (b2 == 0 || b2 == 16 || b2 == 32) && (b3 == 0 || b3 == 16 || b3 == 32)
    && b1 != b2 && b2 != b3 && b1 != b3
  }

  function At<Y>(dbuf: seq<Y>, b: nat): (r: seq<Y>)
    requires b + 16 <= |dbuf|
    ensures |r| == 16
  {
    dbuf[b..b + 16]
  }

  // A store of at most a block at one offset leaves the blocks at the others.
  lemma StoredAt<Y>(dbuf: seq<Y>, b: nat, s: seq<Y>)
    requires b + 16 <= |dbuf| && |s| <= 16
    ensures At(Stored(dbuf, b, s), b) == s + At(dbuf, b)[|s|..]
    ensures forall o: nat :: o + 16 <= |dbuf| && (o + 16 <= b || b + 16 <= o) ==> At(Stored(dbuf, b, s), o) == At(dbuf, o)
  {
    StoredHere(dbuf, b, s);
    forall o: nat | o + 16 <= |dbuf| && (o + 16 <= b || b + 16 <= o)
      ensures At(Stored(dbuf, b, s), o) == At(dbuf, o)
    {
      StoredElsewhere(dbuf, b, s, o);
    }
  }

  lemma StoredHere<Y>(dbuf: seq<Y>, b: nat, s: seq<Y>)
    requires b + 16 <= |dbuf| && |s| <= 16
    ensures At(Stored(dbuf, b, s), b) == s + At(dbuf, b)[|s|..]
  {
    var t, u := At(Stored(dbuf, b, s), b), s + At(dbuf, b)[|s|..];
    forall i | 0 <= i < 16
      ensures t[i] == u[i]
    {
      assert t[i] == Stored(dbuf, b, s)[b + i];
    }
  }

  lemma StoredElsewhere<Y>(dbuf: seq<Y>, b: nat, s: seq<Y>, o: nat)
    requires b + 16 <= |dbuf| && |s| <= 16 && o + 16 <= |dbuf| && (o + 16 <= b || b + 16 <= o)
    ensures At(Stored(dbuf, b, s), o) == At(dbuf, o)
  {
  }

  // fread(dbuf + b, 1, 16, fin)
  method Read<Y(!new)>(input: seq<Y>, pos: nat, dbuf: array<Y>, b: nat) returns (len: nat)
    requires pos <= |input| && b + 16 <= dbuf.Length
    modifies dbuf
    ensures len == if |input| - pos < 16 then |input| - pos else 16
    ensures At(dbuf[..], b) == input[pos..pos + len] + old(At(dbuf[..], b))[len..]
    ensures forall o: nat :: o + 16 <= dbuf.Length && (o + 16 <= b || b + 16 <= o) ==> At(dbuf[..], o) == old(At(dbuf[..], o))
  {
    len := if |input| - pos < 16 then |input| - pos else 16;
    StoredAt(dbuf[..], b, input[pos..pos + len]);
    StoreBlock(dbuf, b, input[pos..pos + len]);
  }

  // The results of the two functions.  Undefined: the C code accesses memory outside its buffers, or
  // goes on with bytes that were never set.
  datatype Outcome = Done | WriteError | Undefined

  // As much of a file as there is space for
  function Cut<Y>(file: seq<Y>, space: nat): seq<Y> {
    if |file| <= space then file else file[..space]
  }

  // fwrite
  method Put<Y(!new)>(fout: seq<Y>, data: seq<Y>, space: nat) returns (r: seq<Y>, ok: bool)
    requires |fout| <= space
    ensures r == Cut(fout + data, space) && ok == (|fout + data| <= space) && (ok ==> r == fout + data && |r| <= space)
  {
    ok := |fout| + |data| <= space;
    if ok {
      r := fout + data;
    } else {
      r := fout + data[..space - |fout|];
      assert (fout + data)[..space] == r;
    }
  }

  // A write that fails leaves what there is space for of the whole file.
  lemma CutEarly<Y>(part: seq<Y>, file: seq<Y>, space: nat)
    requires part <= file && |part| > space
    ensures Cut(part, space) == Cut(file, space) && |file| > space
  {
  }

  // What aes_encrypt or aes_decrypt does to a block in place.  Its result is not looked at, so a
  // context without a key leaves the block as it is.
  function Effect<Y(!new)>(ctx: ModeContext<Y>): seq<Y> -> seq<Y> {
    if ctx.keyed then ctx.cipher else (b => b)
  }

  lemma EffectOnBlocks<Y(!new)>(ctx: ModeContext<Y>)
    requires ctx.Valid()
    ensures OnBlocks(Effect(ctx))
  {
  }

  lemma StoredSame<Y>(dbuf: seq<Y>, b: nat)
    requires b + 16 <= |dbuf|
    ensures Stored(dbuf, b, At(dbuf, b)) == dbuf
  {
  }

  // aes_encrypt(dbuf + b, dbuf + b, ctx) or aes_decrypt of the same
  method CryptAt<Y(!new)>(ctx: ModeContext<Y>, dbuf: array<Y>, b: nat)
    requires ctx.Valid() && b + 16 <= dbuf.Length
    modifies dbuf
    ensures OnBlocks(Effect(ctx)) && dbuf[..] == Stored(old(dbuf[..]), b, Effect(ctx)(old(At(dbuf[..], b))))
    ensures At(dbuf[..], b) == Effect(ctx)(old(At(dbuf[..], b)))
    ensures forall o: nat :: o + 16 <= dbuf.Length && (o + 16 <= b || b + 16 <= o) ==> At(dbuf[..], o) == old(At(dbuf[..], o))
  {
    EffectOnBlocks(ctx);
    StoredSame(dbuf[..], b);
    StoredAt(dbuf[..], b, Effect(ctx)(At(dbuf[..], b)));
    hide Stored;
    var ok := ctx.Crypt(dbuf, b, dbuf, b);
  }

  // for (i = 0; i < n; ++i) dbuf[to + i] ^= dbuf[from + i]
  method XorAt<Y(!new)>(xor: (Y, Y) -> Y, dbuf: array<Y>, to: nat, from: nat, n: nat)
    requires to + 16 <= dbuf.Length && from + 16 <= dbuf.Length && (to + 16 <= from || from + 16 <= to) && n <= 16
    modifies dbuf
    ensures At(dbuf[..], to) == Zip(xor, old(At(dbuf[..], to))[..n], old(At(dbuf[..], from))[..n]) + old(At(dbuf[..], to))[n..]
    ensures forall o: nat :: o + 16 <= dbuf.Length && (o + 16 <= to || to + 16 <= o) ==> At(dbuf[..], o) == old(At(dbuf[..], o))
  {
    ghost var d := dbuf[..];
    ghost var x, y := At(d, to)[..n], At(d, from)[..n];
    StoredAt(d, to, Zip(xor, x, y));
    for i := 0 to n
      invariant XorPart(xor, dbuf[..], d, to, from, i)
    {
      dbuf[to + i] := xor(dbuf[to + i], dbuf[from + i]);
    }
    XorWhole(xor, dbuf[..], d, to, from, n);
  }

  ghost predicate XorPart<Y>(xor: (Y, Y) -> Y, t: seq<Y>, d: seq<Y>, to: nat, from: nat, n: nat)
    requires to + 16 <= |d| && from + 16 <= |d| && n <= 16
  {
    && |t| == |d| && (forall k :: 0 <= k < |d| && !(to <= k < to + n) ==> t[k] == d[k])
    && (forall k :: to <= k < to + n ==> t[k] == xor(d[k], d[from + (k - to)]))
  }

  lemma XorWhole<Y>(xor: (Y, Y) -> Y, t: seq<Y>, d: seq<Y>, to: nat, from: nat, n: nat)
    requires to + 16 <= |d| && from + 16 <= |d| && n <= 16 && XorPart(xor, t, d, to, from, n)
    ensures t == Stored(d, to, Zip(xor, At(d, to)[..n], At(d, from)[..n]))
  {
    var z := Zip(xor, At(d, to)[..n], At(d, from)[..n]);
    forall k | 0 <= k < |d|
      ensures t[k] == Stored(d, to, z)[k]
    {
      if to <= k < to + n {
        assert At(d, to)[..n][k - to] == d[k] && At(d, from)[..n][k - to] == d[from + (k - to)];
      }
    }
  }

  // for (i = n; i < BLOCK_LEN; ++i) dbuf[to + i] = s[i]
  method CopyTail<Y(!new)>(dbuf: array<Y>, to: nat, s: seq<Y>, n: nat)
    requires to + 16 <= dbuf.Length && |s| == 16 && n <= 16
    modifies dbuf
    ensures At(dbuf[..], to) == old(At(dbuf[..], to))[..n] + s[n..]
    ensures forall o: nat :: o + 16 <= dbuf.Length && (o + 16 <= to || to + 16 <= o) ==> At(dbuf[..], o) == old(At(dbuf[..], o))
  {
    var b := dbuf[to..to + 16];
    StoredAt(dbuf[..], to, b[..n] + s[n..]);
    StoreBlock(dbuf, to, b[..n] + s[n..]);
  }

  // Encryption

  lemma Pieces<T>(d: seq<T>, len: nat)
    requires len <= 16 && |d| >= 32
    ensures d[..16 + len] == At(d, 0) + At(d, 16)[..len] && At(d, len) == d[..16 + len][len..]
    ensures d[..len] == d[..16 + len][..len] && At(d, 0)[..len] == d[..len]
  {
    forall i | 0 <= i < 16 + len
      ensures d[..16 + len][i] == (At(d, 0) + At(d, 16)[..len])[i]
    {
      assert i >= 16 ==> At(d, 16)[i - 16] == d[i];
    }
  }

  lemma StoredTail<T>(d: seq<T>, len: nat, x: seq<T>)
    requires |x| == 16 && len + 16 <= |d|
    ensures Stored(d, len, x)[..len + 16] == d[..len] + x
  {
  }

  method EncShort<Y(!new)>(xor: (Y, Y) -> Y, ctx: ModeContext<Y>, dbuf: array<Y>, len: nat, ghost iv: seq<Y>, ghost m: seq<Y>) returns (fout: seq<Y>)
    requires ctx.Valid() && OnBlocks(Effect(ctx)) && dbuf.Length == 48 && |iv| == 16 && |m| == len < 16
    requires At(dbuf[..], 0) == iv && At(dbuf[..], 16)[..len] == m
    modifies dbuf
    ensures fout == ShortFile(xor, Effect(ctx), iv, m)
  {
    ghost var z := Zip(xor, m, iv[..len]);
    ghost var b := iv + z;
    XorAt(xor, dbuf, 16, 0, len);
    assert At(dbuf[..], 16)[..len] == z;
    Pieces(dbuf[..], len);
    StoredTail(dbuf[..], len, Effect(ctx)(b[len..]));
    hide At, Zip, Effect, Stored, OnBlocks;
    CryptAt(ctx, dbuf, len);
    fout := dbuf[..len + 16];
  }

  // One round up to the encryption of the block: in b1 and b2 are the block to be encrypted and the
  // ciphertext it is chained to.
  method EncBlock<Y(!new)>(xor: (Y, Y) -> Y, ctx: ModeContext<Y>, fin: seq<Y>, pos: nat, dbuf: array<Y>, b1: nat, b2: nat, b3: nat) returns (len: nat)
    requires ctx.Valid() && OnBlocks(Effect(ctx)) && dbuf.Length == 48 && Offsets(b1, b2, b3) && pos <= |fin|
    modifies dbuf
    ensures len == if |fin| - pos < 16 then |fin| - pos else 16
    ensures At(dbuf[..], b1) == Effect(ctx)(Zip(xor, old(At(dbuf[..], b1)), old(At(dbuf[..], b2))))
    ensures At(dbuf[..], b3)[..len] == fin[pos..pos + len]
  {
    ghost var x, y := At(dbuf[..], b1), At(dbuf[..], b2);
    assert Zip(xor, x[..16], y[..16]) + x[16..] == Zip(xor, x, y);
    hide At;
    len := Read(fin, pos, dbuf, b3);
    XorAt(xor, dbuf, b1, b2, 16);
    CryptAt(ctx, dbuf, b1);
  }

  method Steal<Y(!new)>(xor: (Y, Y) -> Y, ctx: ModeContext<Y>, dbuf: array<Y>, b1: nat, b2: nat, b3: nat, len: nat)
    requires ctx.Valid() && OnBlocks(Effect(ctx)) && dbuf.Length == 48 && Offsets(b1, b2, b3) && len <= 16
    modifies dbuf
    ensures At(dbuf[..], b1) == old(At(dbuf[..], b1))
    ensures At(dbuf[..], b3) == Effect(ctx)(Stolen(xor, old(At(dbuf[..], b1)), old(At(dbuf[..], b3))[..len]))
  {
    ghost var y, x := At(dbuf[..], b1), At(dbuf[..], b3);
    assert (Zip(xor, x[..len], y[..len]) + x[len..])[..len] == Zip(xor, x[..len], y[..len]);
    hide At;
    XorAt(xor, dbuf, b3, b1, len);
    CopyTail(dbuf, b3, At(dbuf[..], b1), len);
    CryptAt(ctx, dbuf, b3);
  }

  // One more block, whose chained form is x
  lemma EncNext<Y(!new)>(xor: (Y, Y) -> Y, e: seq<Y> -> seq<Y>, iv: seq<Y>, fin: seq<Y>, pos: nat, c: seq<Y>, x: seq<Y>)
    requires OnBlocks(e) && |iv| == 16 && 16 <= pos <= |fin| && pos % 16 == 0 && c == CbcEncrypt(xor, e, iv, fin[..pos - 16])
    requires x == Zip(xor, LastBlock(iv, c), fin[pos - 16..pos])
    ensures c + e(x) == CbcEncrypt(xor, e, iv, fin[..pos]) && LastBlock(iv, c + e(x)) == e(x) && |e(x)| == 16
  {
    hide Zip, CbcEncrypt;
    assert fin[..pos - 16] + fin[pos - 16..pos] == fin[..pos];
    CbcEncryptSnoc(xor, e, iv, fin[..pos - 16], fin[pos - 16..pos]);
  }

  // The whole file, when the last block c + y of the whole blocks before pos is reached
  lemma EncEnd<Y(!new)>(xor: (Y, Y) -> Y, e: seq<Y> -> seq<Y>, iv: seq<Y>, fin: seq<Y>, pos: nat, c: seq<Y>, y: seq<Y>)
    requires OnBlocks(e) && |iv| == 16 && 16 <= pos <= |fin| < pos + 16 && pos % 16 == 0
    requires c + y == CbcEncrypt(xor, e, iv, fin[..pos]) && |y| == 16
    ensures Encrypted(xor, e, iv, fin) == if pos == |fin| then iv + c + y else iv + c + e(Stolen(xor, y, fin[pos..])) + y[..|fin| - pos]
  {
    hide Stolen, CbcEncrypt, Encrypted;
    LongFile(xor, e, iv, fin, pos);
    SplitAt(c, y);
    Assoc(iv, c, y);
  }

  lemma LongFile<Y(!new)>(xor: (Y, Y) -> Y, e: seq<Y> -> seq<Y>, iv: seq<Y>, fin: seq<Y>, pos: nat)
    requires OnBlocks(e) && |iv| == 16 && 16 <= pos <= |fin| < pos + 16 && pos % 16 == 0
    ensures var c := CbcEncrypt(xor, e, iv, fin[..pos]);
            && |c| == pos
            && (pos == |fin| ==> Encrypted(xor, e, iv, fin) == iv + c)
            && (pos < |fin| ==> Encrypted(xor, e, iv, fin) == StolenFile(xor, e, iv, c[..pos - 16], c[pos - 16..], fin[pos..]))
  {
    hide StolenFile, ShortFile, CbcEncrypt, OnBlocks;
    assert pos == |fin| - |fin| % 16;
  }

  // Before the last whole block, what has been written is the beginning of the file.
  lemma EncPrefix<Y(!new)>(xor: (Y, Y) -> Y, e: seq<Y> -> seq<Y>, iv: seq<Y>, fin: seq<Y>, pos: nat)
    requires OnBlocks(e) && |iv| == 16 && pos + 16 <= |fin| && pos % 16 == 0
    ensures iv + CbcEncrypt(xor, e, iv, fin[..pos]) <= Encrypted(xor, e, iv, fin)
  {
    var k := WholePart(|fin|);
    var c := CbcEncrypt(xor, e, iv, fin[..k]);
    var front, y := c[..k - 16], c[k - 16..];
    hide CbcEncrypt, Encrypted, Stolen;
    CutLast(c, k - 16);
    EncEnd(xor, e, iv, fin, k, front, y);
    CbcEncryptPrefix(xor, e, iv, fin[..k], pos);
    PrefixOfPrefix(fin, pos, k);
    PrefixOfPrefix(c, pos, k - 16);
    Begins(iv, front, pos, y, []);
    Begins(iv, front, pos, e(Stolen(xor, y, fin[k..])), y[..|fin| - k]);
  }

  // The length up to the last whole block
  function WholePart(n: nat): (k: nat)
    ensures k <= n < k + 16 && k % 16 == 0
    ensures forall p :: p % 16 == 0 && p + 16 <= n ==> p + 16 <= k
  {
    n - n % 16
  }

  lemma PrefixOfPrefix<T>(s: seq<T>, i: nat, k: nat)
    requires i <= k <= |s|
    ensures s[..k][..i] == s[..i]
  {
  }

  lemma Begins<T>(iv: seq<T>, c: seq<T>, i: nat, x: seq<T>, y: seq<T>)
    requires i <= |c|
    ensures iv + c[..i] <= iv + c + x + y && iv + c[..i] <= iv + c + x
  {
  }

  // encfile at the top of its loop: the blocks before pos - 16 are written as c, and v and w hold the
  // block there and the ciphertext before it.
  ghost predicate EncAt<Y(!new)>(xor: (Y, Y) -> Y, e: seq<Y> -> seq<Y>, iv: seq<Y>, fin: seq<Y>, pos: nat, v: seq<Y>, w: seq<Y>, fout: seq<Y>) {
    && OnBlocks(e) && IsXor(xor) && |iv| == |v| == |w| == 16 && 16 <= pos <= |fin| && pos % 16 == 0
    && var c := CbcEncrypt(xor, e, iv, fin[..pos - 16]);
       fout == iv + c && Zip(xor, v, w) == Zip(xor, LastBlock(iv, c), fin[pos - 16..pos])
  }

  lemma EncFirst<Y(!new)>(xor: (Y, Y) -> Y, e: seq<Y> -> seq<Y>, iv: seq<Y>, fin: seq<Y>)
    requires OnBlocks(e) && IsXor(xor) && |iv| == 16 <= |fin|
    ensures EncAt(xor, e, iv, fin, 16, iv, fin[..16], iv) && iv <= Encrypted(xor, e, iv, fin)
  {
    EncPrefix(xor, e, iv, fin, 0);
    assert fin[..0] == [] && iv + [] == iv && fin[..16] == fin[0..16];
    hide Encrypted;
  }

  // The block encrypted in a round, when another whole one follows
  lemma EncMore<Y(!new)>(xor: (Y, Y) -> Y, e: seq<Y> -> seq<Y>, iv: seq<Y>, fin: seq<Y>, pos: nat, v: seq<Y>, w: seq<Y>, fout: seq<Y>)
    requires EncAt(xor, e, iv, fin, pos, v, w, fout) && pos + 16 <= |fin|
    ensures var y := e(Zip(xor, v, w));
            EncAt(xor, e, iv, fin, pos + 16, fin[pos..pos + 16], y, fout + y) && fout + y <= Encrypted(xor, e, iv, fin)
  {
    hide CbcEncrypt, Encrypted, Zip, LastBlock, IsXor;
    var c, y := CbcEncrypt(xor, e, iv, fin[..pos - 16]), e(Zip(xor, v, w));
    EncNext(xor, e, iv, fin, pos, c, Zip(xor, v, w));
    EncPrefix(xor, e, iv, fin, pos);
    Assoc(iv, c, y);
    ZipCommutes(xor, y, fin[pos..pos + 16]);
  }

  // The end of the file, when no whole block follows
  lemma EncFinal<Y(!new)>(xor: (Y, Y) -> Y, e: seq<Y> -> seq<Y>, iv: seq<Y>, fin: seq<Y>, pos: nat, v: seq<Y>, w: seq<Y>, fout: seq<Y>)
    requires EncAt(xor, e, iv, fin, pos, v, w, fout) && |fin| < pos + 16
    ensures var y := e(Zip(xor, v, w));
            |y| == 16 && Encrypted(xor, e, iv, fin) == if pos == |fin| then fout + y else fout + e(Stolen(xor, y, fin[pos..])) + y[..|fin| - pos]
  {
    var c := CbcEncrypt(xor, e, iv, fin[..pos - 16]);
    EncNext(xor, e, iv, fin, pos, c, Zip(xor, v, w));
    EncEnd(xor, e, iv, fin, pos, c, e(Zip(xor, v, w)));
    hide CbcEncrypt, Encrypted, Zip, LastBlock, IsXor, Stolen;
  }

  lemma EncHere<Y(!new)>(xor: (Y, Y) -> Y, e: seq<Y> -> seq<Y>, iv: seq<Y>, fin: seq<Y>, pos: nat, v: seq<Y>, w: seq<Y>, fout: seq<Y>)
    requires EncAt(xor, e, iv, fin, pos, v, w, fout)
    ensures OnBlocks(e) && |iv| == |v| == |w| == 16 && pos <= |fin|
  {
  }

  // One round of the loop
  method EncRound<Y(!new)>(xor: (Y, Y) -> Y, ctx: ModeContext<Y>, ghost iv: seq<Y>, fin: seq<Y>, pos: nat, dbuf: array<Y>, b1: nat, b2: nat, b3: nat,
                           written: seq<Y>, space: nat) returns (fout: seq<Y>, more: bool, ok: bool)
    requires ctx.Valid() && dbuf.Length == 48 && Offsets(b1, b2, b3) && |written| <= space
    requires EncAt(xor, Effect(ctx), iv, fin, pos, At(dbuf[..], b1), At(dbuf[..], b2), written)
    modifies dbuf
    ensures more ==> pos + 16 <= |fin| && |fout| <= space && EncAt(xor, Effect(ctx), iv, fin, pos + 16, At(dbuf[..], b3), At(dbuf[..], b1), fout)
    ensures !more ==> fout == Cut(Encrypted(xor, Effect(ctx), iv, fin), space) && ok == (|Encrypted(xor, Effect(ctx), iv, fin)| <= space)
  {
    ghost var e, v, w := Effect(ctx), At(dbuf[..], b1), At(dbuf[..], b2);
    EncHere(xor, e, iv, fin, pos, v, w, written);
    hide *;
    var len := EncBlock(xor, ctx, fin, pos, dbuf, b1, b2, b3);
    more := len == 16;
    if more {
      EncMore(xor, e, iv, fin, pos, v, w, written);
      WholeSlice(At(dbuf[..], b3));
      fout, ok := Put(written, At(dbuf[..], b1), space);
      if !ok {
        CutEarly(written + At(dbuf[..], b1), Encrypted(xor, e, iv, fin), space);
        more := false;
      }
    } else {
      EncFinal(xor, e, iv, fin, pos, v, w, written);
      WholeTail(fin, pos, len);
      fout, ok := EncLast(xor, ctx, dbuf, b1, b2, b3, len, written, space);
    }
  }

  method EncLoop<Y(!new)>(xor: (Y, Y) -> Y, ctx: ModeContext<Y>, ghost iv: seq<Y>, fin: seq<Y>, dbuf: array<Y>, space: nat)
    returns (fout: seq<Y>, ok: bool)
    requires ctx.Valid() && OnBlocks(Effect(ctx)) && dbuf.Length == 48 && IsXor(xor) && |iv| == 16 <= |fin|
    requires At(dbuf[..], 0) == iv && At(dbuf[..], 16) == fin[..16]
    modifies dbuf
    ensures var file := Encrypted(xor, Effect(ctx), iv, fin); fout == Cut(file, space) && ok == (|file| <= space)
  {
    var b1, b2, b3, pos, more := 0, 16, 32, 16, true;
    EncFirst(xor, Effect(ctx), iv, fin);
    assert [] + iv == iv;
    hide At, Encrypted, EncAt, Cut, Effect;
    fout, ok := Put([], At(dbuf[..], 0), space);
    if !ok {
      CutEarly(iv, Encrypted(xor, Effect(ctx), iv, fin), space);
      return;
    }
    while more
      invariant Offsets(b1, b2, b3)
      invariant more ==> pos <= |fin| && |fout| <= space && EncAt(xor, Effect(ctx), iv, fin, pos, At(dbuf[..], b1), At(dbuf[..], b2), fout)
      invariant !more ==> fout == Cut(Encrypted(xor, Effect(ctx), iv, fin), space) && ok == (|Encrypted(xor, Effect(ctx), iv, fin)| <= space)
      decreases |fin| + 16 - pos, more
    {
      fout, more, ok := EncRound(xor, ctx, iv, fin, pos, dbuf, b1, b2, b3, fout, space);
      if more {
        b1, b2, b3, pos := b3, b1, b2, pos + 16;
      }
    }
  }

  // The end of the last round
  method EncLast<Y(!new)>(xor: (Y, Y) -> Y, ctx: ModeContext<Y>, dbuf: array<Y>, b1: nat, b2: nat, b3: nat, len: nat, written: seq<Y>, space: nat)
    returns (fout: seq<Y>, ok: bool)
    requires ctx.Valid() && OnBlocks(Effect(ctx)) && dbuf.Length == 48 && Offsets(b1, b2, b3) && len < 16 && |written| <= space
    modifies dbuf
    ensures var y, r := old(At(dbuf[..], b1)), old(At(dbuf[..], b3))[..len];
            var file := if len == 0 then written + y else written + Effect(ctx)(Stolen(xor, y, r)) + y[..len];
            fout == Cut(file, space) && ok == (|file| <= space)
  {
    WholeSlice(At(dbuf[..], b1));
    hide At, Stolen, Cut;
    fout := written;
    var wlen := 16;
    if len != 0 {
      wlen := len;
      Steal(xor, ctx, dbuf, b1, b2, b3, len);
      fout, ok := Put(fout, At(dbuf[..], b3), space);
      if !ok {
        CutEarly(written + At(dbuf[..], b3), written + At(dbuf[..], b3) + At(dbuf[..], b1)[..len], space);
        return;
      }
    }
    fout, ok := Put(fout, At(dbuf[..], b1)[..wlen], space);
  }

  lemma WholeSlice<T>(s: seq<T>)
    ensures s[..|s|] == s
  {
  }

  // encfile, with the IV that fillrand makes
  method EncFile<Y(0, !new)>(xor: (Y, Y) -> Y, ctx: ModeContext<Y>, iv: seq<Y>, fin: seq<Y>, space: nat) returns (fout: seq<Y>, outcome: Outcome)
    requires ctx.Valid() && IsXor(xor) && |iv| == 16
    ensures OnBlocks(Effect(ctx))
    ensures var file := Encrypted(xor, Effect(ctx), iv, fin);
            && fout == (if |file| <= space then file else file[..space]) && outcome == (if |file| <= space then Done else WriteError)
  {
    EffectOnBlocks(ctx);
    var dbuf := new Y[48];
    var ok: bool;
    StoredAt(dbuf[..], 0, iv);
    hide Effect, Cut, At, Stored, OnBlocks, IsXor;
    StoreBlock(dbuf, 0, iv);
    var len := Read(fin, 0, dbuf, 16);
    if len < 16 {
      fout := EncShort(xor, ctx, dbuf, len, iv, fin);
      ShortIsFile(xor, Effect(ctx), iv, fin, fout);
      fout, ok := Put([], fout, space);
    } else {
      fout, ok := EncLoop(xor, ctx, iv, fin, dbuf, space);
    }
    outcome := if ok then Done else WriteError;
  }

  lemma ShortIsFile<Y(!new)>(xor: (Y, Y) -> Y, e: seq<Y> -> seq<Y>, iv: seq<Y>, m: seq<Y>, f: seq<Y>)
    requires OnBlocks(e) && |iv| == 16 && |m| < 16 && f == ShortFile(xor, e, iv, m)
    ensures [] + f == f == Encrypted(xor, e, iv, m)
  {
    hide ShortFile, OnBlocks;
  }

  // Decryption

  method DecShort<Y(!new)>(xor: (Y, Y) -> Y, ctx: ModeContext<Y>, dbuf: array<Y>, fin: seq<Y>) returns (fout: seq<Y>)
    requires ctx.Valid() && OnBlocks(Effect(ctx)) && dbuf.Length == 48 && 16 <= |fin| < 32 && dbuf[..|fin|] == fin
    modifies dbuf
    ensures fout == ShortMessage(xor, Effect(ctx), fin)
  {
    var len := |fin| - 16;
    ghost var b := fin[..len] + Effect(ctx)(fin[len..]);
    Pieces(dbuf[..], len);
    StoredTail(dbuf[..], len, Effect(ctx)(fin[len..]));
    CryptAt(ctx, dbuf, len);
    Pieces(dbuf[..], len);
    ghost var d := dbuf[..];
    assert d[..16 + len] == b;
    Ends(d, len);
    XorAt(xor, dbuf, 0, 16, len);
    Pieces(dbuf[..], len);
    fout := dbuf[..len];
  }

  lemma Ends<T>(d: seq<T>, len: nat)
    requires len <= 16 && |d| >= 32
    ensures At(d, 16)[..len] == d[..16 + len][16..]
  {
  }

  // for (i = 0; i < n; ++i) buf[i] ^= dbuf[from + i]
  method XorBuf<Y(!new)>(xor: (Y, Y) -> Y, buf: array<Y>, dbuf: array<Y>, from: nat, n: nat)
    requires buf.Length == 16 && from + 16 <= dbuf.Length && n <= 16 && buf != dbuf
    modifies buf
    ensures buf[..] == Zip(xor, old(buf[..n]), At(dbuf[..], from)[..n]) + old(buf[n..])
  {
    ghost var b, y := buf[..], At(dbuf[..], from);
    for i := 0 to n
      invariant forall k :: i <= k < 16 ==> buf[k] == b[k]
      invariant forall k :: 0 <= k < i ==> buf[k] == xor(b[k], y[k])
    {
      assert dbuf[from + i] == y[i];
      buf[i] := xor(buf[i], dbuf[from + i]);
    }
    assert buf[..] == Zip(xor, b[..n], y[..n]) + b[n..];
  }

  // One round up to the decryption of b2 into buf
  method DecBlock<Y(!new)>(ctx: ModeContext<Y>, fin: seq<Y>, pos: nat, dbuf: array<Y>, buf: array<Y>, b1: nat, b2: nat, b3: nat, wasSet: bool)
    returns (len: nat, isSet: bool)
    requires ctx.Valid() && dbuf.Length == 48 && buf.Length == 16 && buf != dbuf && Offsets(b1, b2, b3) && pos <= |fin|
    modifies dbuf, buf
    ensures len == (if |fin| - pos < 16 then |fin| - pos else 16) && isSet == (wasSet || ctx.keyed)
    ensures (ctx.keyed ==> buf[..] == ctx.cipher(At(dbuf[..], b2))) && At(dbuf[..], b3)[..len] == fin[pos..pos + len]
    ensures At(dbuf[..], b1) == old(At(dbuf[..], b1)) && At(dbuf[..], b2) == old(At(dbuf[..], b2))
  {
    len := Read(fin, pos, dbuf, b3);
    var ok := ctx.Crypt(dbuf, b2, buf, 0);
    isSet := wasSet || ok;
  }

  // The end of a round without stealing
  method Unchain<Y(!new)>(xor: (Y, Y) -> Y, dbuf: array<Y>, buf: array<Y>, b1: nat)
    requires dbuf.Length == 48 && buf.Length == 16 && buf != dbuf && b1 + 16 <= 48
    modifies buf
    ensures buf[..] == Zip(xor, old(buf[..]), At(dbuf[..], b1))
  {
    assert buf[..16] == buf[..] && buf[16..] == [];
    XorBuf(xor, buf, dbuf, b1, 16);
  }

  // The end of the last round with stealing: x is the decrypted block and t the partial one.
  method Unsteal<Y(!new)>(xor: (Y, Y) -> Y, ctx: ModeContext<Y>, dbuf: array<Y>, buf: array<Y>, b1: nat, b2: nat, b3: nat, len: nat)
    requires ctx.Valid() && ctx.keyed && dbuf.Length == 48 && buf.Length == 16 && buf != dbuf && Offsets(b1, b2, b3) && len < 16
    modifies dbuf, buf
    ensures var x, t := old(buf[..]), old(At(dbuf[..], b3))[..len];
            && buf[..len] == Zip(xor, x[..len], t)
            && At(dbuf[..], b3) == Zip(xor, ctx.cipher(t + x[len..]), old(At(dbuf[..], b1)))
  {
    ghost var x, t := buf[..], At(dbuf[..], b3)[..len];
    XorBuf(xor, buf, dbuf, b3, len);
    assert buf[..len] == Zip(xor, x[..len], t) && buf[len..] == x[len..];
    CopyTail(dbuf, b3, buf[..], len);
    CryptAt(ctx, dbuf, b3);
    ghost var y := At(dbuf[..], b3);
    assert Zip(xor, y[..16], At(dbuf[..], b1)[..16]) + y[16..] == Zip(xor, y, At(dbuf[..], b1));
    XorAt(xor, dbuf, b3, b1, 16);
  }

  lemma LastBefore<T>(fin: seq<T>, pos: nat)
    requires 32 <= pos <= |fin| && pos % 16 == 0
    ensures LastBlock(fin[..16], fin[16..pos - 16]) == fin[pos - 32..pos - 16]
  {
    if pos > 32 {
      assert fin[16..pos - 16][pos - 48..] == fin[pos - 32..pos - 16];
    }
  }

  lemma DecEnd<Y(!new)>(xor: (Y, Y) -> Y, d: seq<Y> -> seq<Y>, fin: seq<Y>, pos: nat)
    requires OnBlocks(d) && 32 <= pos <= |fin| < pos + 16 && pos % 16 == 0
    ensures Decrypted(xor, d, fin) == if pos == |fin| then CbcDecrypt(xor, d, fin[..16], fin[16..pos])
                                      else StolenMessage(xor, d, fin[..16], fin[16..pos - 16], fin[pos - 16..pos], fin[pos..])
  {
    hide CbcDecrypt, StolenMessage, OnBlocks;
    var k := |fin| - |fin| % 16;
    assert pos == k && k != 16;
    if k == |fin| {
      assert fin[16..pos] == fin[16..];
    }
  }

  // Before the last whole block, what has been written is the beginning of the message.
  lemma DecPrefix<Y(!new)>(xor: (Y, Y) -> Y, d: seq<Y> -> seq<Y>, fin: seq<Y>, pos: nat)
    requires OnBlocks(d) && 32 <= pos && pos + 16 <= |fin| && pos % 16 == 0
    ensures CbcDecrypt(xor, d, fin[..16], fin[16..pos]) <= Decrypted(xor, d, fin)
  {
    hide CbcDecrypt, Decrypted, StolenMessage;
    var k := WholePart(|fin|);
    DecEnd(xor, d, fin, k);
    if k == |fin| {
      DecPrefixOf(xor, d, fin, k, pos, fin[16..k], []);
    } else {
      var x, t := d(fin[k - 16..k]), fin[k..];
      StolenMessageIs(xor, d, fin, k);
      DecPrefixOf(xor, d, fin, k, pos, fin[16..k - 16] + (t + x[|t|..]), Zip(xor, x[..|t|], t));
    }
  }

  lemma DecPrefixOf<Y(!new)>(xor: (Y, Y) -> Y, d: seq<Y> -> seq<Y>, fin: seq<Y>, k: nat, pos: nat, c: seq<Y>, rest: seq<Y>)
    requires OnBlocks(d) && 32 <= pos && pos + 16 <= k <= |fin| && pos % 16 == 0 && |c| == k - 16 && |c| % 16 == 0
    requires c == fin[16..k] || c[..k - 32] == fin[16..k - 16]
    ensures var m := CbcDecrypt(xor, d, fin[..16], fin[16..pos]);
            m <= CbcDecrypt(xor, d, fin[..16], c) && m <= CbcDecrypt(xor, d, fin[..16], c) + rest
  {
    hide CbcDecrypt;
    CbcDecryptPrefix(xor, d, fin[..16], c, pos - 16);
    Inside(fin, k, pos, c);
    BeginsWith(CbcDecrypt(xor, d, fin[..16], c), pos - 16, rest);
  }

  lemma Inside<T>(fin: seq<T>, k: nat, pos: nat, c: seq<T>)
    requires 32 <= pos && pos + 16 <= k <= |fin| && |c| == k - 16 && (c == fin[16..k] || c[..k - 32] == fin[16..k - 16])
    ensures c[..pos - 16] == fin[16..pos]
  {
    if c != fin[16..k] {
      assert c[..pos - 16] == c[..k - 32][..pos - 16] == fin[16..k - 16][..pos - 16];
    }
  }

  lemma BeginsWith<T>(s: seq<T>, n: nat, rest: seq<T>)
    requires n <= |s|
    ensures s[..n] <= s && s[..n] <= s + rest
  {
  }

  // decfile at the top of its loop: the blocks before pos - 16 are decrypted and written, and v and w
  // hold the block there and the one before it.
  ghost predicate DecAt<Y(!new)>(xor: (Y, Y) -> Y, d: seq<Y> -> seq<Y>, fin: seq<Y>, pos: nat, v: seq<Y>, w: seq<Y>, fout: seq<Y>) {
    && OnBlocks(d) && 32 <= pos <= |fin| && pos % 16 == 0
    && fout == CbcDecrypt(xor, d, fin[..16], fin[16..pos - 16]) && v == fin[pos - 32..pos - 16] && w == fin[pos - 16..pos]
  }

  lemma DecMore<Y(!new)>(xor: (Y, Y) -> Y, d: seq<Y> -> seq<Y>, fin: seq<Y>, pos: nat, v: seq<Y>, w: seq<Y>, fout: seq<Y>)
    requires DecAt(xor, d, fin, pos, v, w, fout)
    ensures |v| == |w| == |d(w)| == 16
    ensures var fout' := fout + Zip(xor, d(w), v);
            && fout' == CbcDecrypt(xor, d, fin[..16], fin[16..pos])
            && (pos + 16 <= |fin| ==> DecAt(xor, d, fin, pos + 16, w, fin[pos..pos + 16], fout') && fout' <= Decrypted(xor, d, fin))
            && (pos == |fin| ==> Decrypted(xor, d, fin) == fout')
  {
    LastBefore(fin, pos);
    CbcDecryptSnoc(xor, d, fin[..16], fin[16..pos - 16], w);
    assert fin[16..pos - 16] + w == fin[16..pos];
    hide CbcDecrypt, Decrypted, Zip, LastBlock;
    if pos + 16 <= |fin| {
      DecPrefix(xor, d, fin, pos);
    } else if pos == |fin| {
      DecEnd(xor, d, fin, pos);
    }
  }

  lemma DecFinal<Y(!new)>(xor: (Y, Y) -> Y, d: seq<Y> -> seq<Y>, fin: seq<Y>, pos: nat, v: seq<Y>, w: seq<Y>, fout: seq<Y>)
    requires DecAt(xor, d, fin, pos, v, w, fout) && pos < |fin| < pos + 16
    ensures |v| == |w| == |d(w)| == 16
    ensures var x, t := d(w), fin[pos..];
            Decrypted(xor, d, fin) == fout + Zip(xor, d(t + x[|t|..]), v) + Zip(xor, x[..|t|], t)
  {
    LastBefore(fin, pos);
    CbcDecryptSnoc(xor, d, fin[..16], fin[16..pos - 16], fin[pos..] + d(w)[|fin| - pos..]);
    DecEnd(xor, d, fin, pos);
    StolenMessageIs(xor, d, fin, pos);
    hide CbcDecrypt, Decrypted, Zip, LastBlock, StolenMessage;
  }

  lemma DecHere<Y(!new)>(xor: (Y, Y) -> Y, d: seq<Y> -> seq<Y>, fin: seq<Y>, pos: nat, v: seq<Y>, w: seq<Y>, fout: seq<Y>)
    requires DecAt(xor, d, fin, pos, v, w, fout)
    ensures OnBlocks(d) && |v| == |w| == 16 && pos <= |fin|
  {
  }

  // One round of the loop.  wasSet and isSet: a block has been decrypted into buf.  When none has been,
  // the round goes on with what buf happens to hold.
  method DecRound<Y(!new)>(xor: (Y, Y) -> Y, ctx: ModeContext<Y>, fin: seq<Y>, pos: nat, dbuf: array<Y>, buf: array<Y>, b1: nat, b2: nat, b3: nat,
                           written: seq<Y>, space: nat, wasSet: bool) returns (fout: seq<Y>, more: bool, ok: bool, isSet: bool)
    requires ctx.Valid() && dbuf.Length == 48 && buf.Length == 16 && buf != dbuf && Offsets(b1, b2, b3) && |written| <= space
    requires DecAt(xor, ctx.cipher, fin, pos, At(dbuf[..], b1), At(dbuf[..], b2), written) && (wasSet ==> ctx.keyed)
    modifies dbuf, buf
    ensures isSet == ctx.keyed && (more ==> isSet)
    ensures more ==> pos + 16 <= |fin| && |fout| <= space && DecAt(xor, ctx.cipher, fin, pos + 16, At(dbuf[..], b2), At(dbuf[..], b3), fout)
    ensures !more && isSet ==> fout == Cut(Decrypted(xor, ctx.cipher, fin), space) && ok == (|Decrypted(xor, ctx.cipher, fin)| <= space)
  {
    ghost var d, v, w := ctx.cipher, At(dbuf[..], b1), At(dbuf[..], b2);
    DecHere(xor, d, fin, pos, v, w, written);
    hide *;
    var len;
    len, isSet := DecBlock(ctx, fin, pos, dbuf, buf, b1, b2, b3, wasSet);
    if !isSet {
      fout, more, ok := written, false, false;
    } else if len == 0 || len == 16 {
      WholeSlice(At(dbuf[..], b3));
      fout, more, ok := DecPlain(xor, fin, pos, len, dbuf, buf, b1, v, w, d, written, space);
    } else {
      more := false;
      DecFinal(xor, d, fin, pos, v, w, written);
      WholeTail(fin, pos, len);
      fout, ok := DecLast(xor, ctx, dbuf, buf, b1, b2, b3, len, written, space);
    }
  }

  lemma WholeTail<T>(fin: seq<T>, pos: nat, len: nat)
    requires pos + len == |fin|
    ensures fin[pos..pos + len] == fin[pos..]
  {
  }

  // The end of a round without stealing: buf holds the decrypted block.
  method DecPlain<Y(!new)>(xor: (Y, Y) -> Y, ghost fin: seq<Y>, ghost pos: nat, len: nat, dbuf: array<Y>, buf: array<Y>, b1: nat,
                           ghost v: seq<Y>, ghost w: seq<Y>, ghost d: seq<Y> -> seq<Y>, written: seq<Y>, space: nat)
    returns (fout: seq<Y>, more: bool, ok: bool)
    requires dbuf.Length == 48 && buf.Length == 16 && buf != dbuf && b1 + 16 <= 48 && |written| <= space
    requires DecAt(xor, d, fin, pos, v, w, written) && At(dbuf[..], b1) == v && buf[..] == d(w)
    requires (len == 0 && pos == |fin|) || (len == 16 && pos + 16 <= |fin|)
    modifies buf
    ensures more ==> len == 16 && |fout| <= space && DecAt(xor, d, fin, pos + 16, w, fin[pos..pos + 16], fout)
    ensures !more ==> fout == Cut(Decrypted(xor, d, fin), space) && ok == (|Decrypted(xor, d, fin)| <= space)
  {
    DecMore(xor, d, fin, pos, v, w, written);
    hide *;
    Unchain(xor, dbuf, buf, b1);
    fout, ok := Put(written, buf[..], space);
    more := ok && len == 16;
    if !ok && len == 16 {
      CutEarly(written + buf[..], Decrypted(xor, d, fin), space);
    }
  }

  method DecLoop<Y(!new)>(xor: (Y, Y) -> Y, ctx: ModeContext<Y>, fin: seq<Y>, dbuf: array<Y>, buf: array<Y>, space: nat)
    returns (fout: seq<Y>, ok: bool, isSet: bool)
    requires ctx.Valid() && dbuf.Length == 48 && buf.Length == 16 && buf != dbuf && 32 <= |fin|
    requires At(dbuf[..], 0) == fin[0..16] && At(dbuf[..], 16) == fin[16..32]
    modifies dbuf, buf
    ensures isSet == ctx.keyed
    ensures isSet ==> var m := Decrypted(xor, ctx.cipher, fin); fout == Cut(m, space) && ok == (|m| <= space)
  {
    var b1, b2, b3, pos, more := 0, 16, 32, 32, true;
    fout, ok, isSet := [], true, false;
    DecStart(xor, ctx.cipher, fin);
    hide At, Decrypted, CbcDecrypt, Cut;
    assert DecAt(xor, ctx.cipher, fin, pos, At(dbuf[..], b1), At(dbuf[..], b2), fout);
    hide DecAt;
    while more
      invariant Offsets(b1, b2, b3) && (isSet ==> ctx.keyed) && (!more ==> isSet == ctx.keyed)
      invariant more ==> pos <= |fin| && |fout| <= space && DecAt(xor, ctx.cipher, fin, pos, At(dbuf[..], b1), At(dbuf[..], b2), fout)
      invariant !more && isSet ==> fout == Cut(Decrypted(xor, ctx.cipher, fin), space) && ok == (|Decrypted(xor, ctx.cipher, fin)| <= space)
      decreases |fin| + 16 - pos, more
    {
      fout, more, ok, isSet := DecRound(xor, ctx, fin, pos, dbuf, buf, b1, b2, b3, fout, space, isSet);
      if more {
        b1, b2, b3, pos := b2, b3, b1, pos + 16;
      }
    }
  }

  // The end of the last round with stealing
  method DecLast<Y(!new)>(xor: (Y, Y) -> Y, ctx: ModeContext<Y>, dbuf: array<Y>, buf: array<Y>, b1: nat, b2: nat, b3: nat, len: nat,
                          written: seq<Y>, space: nat)
    returns (fout: seq<Y>, ok: bool)
    requires ctx.Valid() && ctx.keyed && dbuf.Length == 48 && buf.Length == 16 && buf != dbuf && Offsets(b1, b2, b3) && len < 16
    requires |written| <= space
    modifies dbuf, buf
    ensures var x, t := old(buf[..]), old(At(dbuf[..], b3))[..len];
            var m := written + Zip(xor, ctx.cipher(t + x[len..]), old(At(dbuf[..], b1))) + Zip(xor, x[..len], t);
            fout == Cut(m, space) && ok == (|m| <= space)
  {
    hide At, Zip, Cut;
    Unsteal(xor, ctx, dbuf, buf, b1, b2, b3, len);
    fout, ok := Put(written, At(dbuf[..], b3), space);
    if !ok {
      CutEarly(written + At(dbuf[..], b3), written + At(dbuf[..], b3) + buf[..len], space);
      return;
    }
    fout, ok := Put(fout, buf[..len], space);
  }

  lemma StolenMessageIs<Y(!new)>(xor: (Y, Y) -> Y, d: seq<Y> -> seq<Y>, fin: seq<Y>, pos: nat)
    requires OnBlocks(d) && 32 <= pos < |fin| < pos + 16 && pos % 16 == 0
    ensures var x, t := d(fin[pos - 16..pos]), fin[pos..];
            var m := CbcDecrypt(xor, d, fin[..16], fin[16..pos - 16] + (t + x[|t|..])) + Zip(xor, x[..|t|], t);
            StolenMessage(xor, d, fin[..16], fin[16..pos - 16], fin[pos - 16..pos], t) == m
  {
    hide CbcDecrypt, Zip;
  }

  lemma DecStart<Y(!new)>(xor: (Y, Y) -> Y, d: seq<Y> -> seq<Y>, fin: seq<Y>)
    requires OnBlocks(d) && 32 <= |fin|
    ensures CbcDecrypt(xor, d, fin[..16], fin[16..16]) == []
  {
  }

  // fread(dbuf, 1, 2 * BLOCK_LEN, fin)
  lemma FirstTwoBlocks<Y>(dbuf: seq<Y>, fin: seq<Y>, len: nat)
    requires len <= |fin| && len <= 32 <= |dbuf|
    ensures var t := Stored(dbuf, 0, fin[..len]);
            && (len == |fin| ==> t[..len] == fin)
            && (len == 32 ==> At(t, 0) == fin[0..16] && At(t, 16) == fin[16..32])
  {
  }

  lemma ShortFileDecrypted<Y(!new)>(xor: (Y, Y) -> Y, d: seq<Y> -> seq<Y>, fin: seq<Y>)
    requires OnBlocks(d) && 16 <= |fin| < 32
    ensures Decrypted(xor, d, fin) == ShortMessage(xor, d, fin)
  {
    hide ShortMessage, StolenMessage, CbcDecrypt, OnBlocks;
    assert |fin| - |fin| % 16 == 16;
  }

  // decfile.  The length of a file of less than a block wraps around below zero, and the block at that
  // offset is outside the buffer.
  method DecFile<Y(0, !new)>(xor: (Y, Y) -> Y, ctx: ModeContext<Y>, fin: seq<Y>, space: nat) returns (fout: seq<Y>, outcome: Outcome)
    requires ctx.Valid()
    ensures OnBlocks(Effect(ctx))
    ensures outcome == Undefined <==> |fin| < 16 || (!ctx.keyed && |fin| >= 32)
    ensures outcome != Undefined ==>
              var m := Decrypted(xor, Effect(ctx), fin);
              && fout == (if |m| <= space then m else m[..space]) && outcome == (if |m| <= space then Done else WriteError)
  {
    EffectOnBlocks(ctx);
    var dbuf, buf := new Y[48], new Y[16];
    var len, ok := if |fin| < 32 then |fin| else 32, true;
    FirstTwoBlocks(dbuf[..], fin, len);
    hide Effect, Cut, At, Stored, OnBlocks, Decrypted, ShortMessage;
    StoreBlock(dbuf, 0, fin[..len]);
    if len < 32 {
      var at := (len + 0x1_0000_0000 - 16) % 0x1_0000_0000;
      if at + 16 > dbuf.Length {
        return [], Undefined;
      }
      ShortFileDecrypted(xor, Effect(ctx), fin);
      fout := DecShort(xor, ctx, dbuf, fin);
      assert [] + fout == fout;
      fout, ok := Put([], fout, space);
    } else {
      var isSet;
      fout, ok, isSet := DecLoop(xor, ctx, fin, dbuf, buf, space);
      if !isSet {
        return [], Undefined;
      }
      KeyedEffect(ctx);
    }
    outcome := if ok then Done else WriteError;
  }

  lemma KeyedEffect<Y(!new)>(ctx: ModeContext<Y>)
    requires ctx.keyed
    ensures Effect(ctx) == ctx.cipher
  {
  }

  // With space for both, decrypting what encryption wrote restores the file, and the output is one
  // block longer.
  method FileRoundTrip<Y(0, !new)>(xor: (Y, Y) -> Y, enc: ModeContext<Y>, dec: ModeContext<Y>, iv: seq<Y>, file: seq<Y>, space: nat)
    returns (encrypted: seq<Y>, decrypted: seq<Y>)
    requires enc.Valid() && enc.keyed && dec.Valid() && dec.keyed && Undoes(dec.cipher, enc.cipher) && IsXor(xor) && |iv| == 16
    requires space >= |file| + 16
    ensures |encrypted| == |file| + 16 && decrypted == file
  {
    var outcome;
    KeyedEffect(enc);
    KeyedEffect(dec);
    RoundTrip(xor, dec.cipher, enc.cipher, iv, file);
    hide Effect, Encrypted, Decrypted, OnBlocks, Undoes, IsXor;
    encrypted, outcome := EncFile(xor, enc, iv, file, space);
    decrypted, outcome := DecFile(xor, dec, encrypted, space);
  }
}
