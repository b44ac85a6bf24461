/**
  ECB and CBC on whole blocks (NIST SP 800-38A sections 6.1 and 6.2): the reference for the buffer
  functions.  A block is sixteen values of any type Y with an XOR.
*/
module BlockChaining {
  import opened Sequences
  import opened Blocks

  function Ecb<Y(!new)>(e: seq<Y> -> seq<Y>, m: seq<Y>): (c: seq<Y>)
    requires OnBlocks(e) && |m| % 16 == 0
    ensures |c| == |m|
  {
    if m == [] then [] else
      var n := |m| - 16;
      Ecb(e, m[..n]) + e(m[n..])
  }

  // The block the next one is chained to: the last block of ciphertext, or the IV before the first.
  function LastBlock<Y>(iv: seq<Y>, c: seq<Y>): (b: seq<Y>)
    requires |iv| == 16 && |c| % 16 == 0
    ensures |b| == 16
  {
    if c == [] then iv else c[|c| - 16..]
  }

  function CbcEncrypt<Y(!new)>(xor: (Y, Y) -> Y, e: seq<Y> -> seq<Y>, iv: seq<Y>, m: seq<Y>): (c: seq<Y>)
    requires OnBlocks(e) && |iv| == 16 && |m| % 16 == 0
    ensures |c| == |m|
  {
    if m == [] then [] else
      var n := |m| - 16;
      var c := CbcEncrypt(xor, e, iv, m[..n]);
      c + e(Zip(xor, LastBlock(iv, c), m[n..]))
  }

  function CbcDecrypt<Y(!new)>(xor: (Y, Y) -> Y, d: seq<Y> -> seq<Y>, iv: seq<Y>, c: seq<Y>): (m: seq<Y>)
    requires OnBlocks(d) && |iv| == 16 && |c| % 16 == 0
    ensures |m| == |c|
  {
    if c == [] then [] else
      var n := |c| - 16;
      CbcDecrypt(xor, d, iv, c[..n]) + Zip(xor, d(c[n..]), LastBlock(iv, c[..n]))
  }

  // The block cipher's functions on blocks undo each other in this order.
  ghost predicate Undoes<Y(!new)>(d: seq<Y> -> seq<Y>, e: seq<Y> -> seq<Y>) {
    forall b {:trigger e(b)} :: |b| == 16 ==> |e(b)| == 16 && d(e(b)) == b
  }

  lemma ZipUndoes<Y(!new)>(xor: (Y, Y) -> Y, a: seq<Y>, b: seq<Y>)
    requires |a| == |b| && IsXor(xor)
    ensures Zip(xor, a, Zip(xor, a, b)) == b && Zip(xor, Zip(xor, a, b), a) == b
  {
  }

  // One more block

  lemma EcbSnoc<Y(!new)>(e: seq<Y> -> seq<Y>, m: seq<Y>, b: seq<Y>)
    requires OnBlocks(e) && |m| % 16 == 0 && |b| == 16
    ensures Ecb(e, m + b) == Ecb(e, m) + e(b)
  {
    SplitAt(m, b);
  }

  lemma CbcEncryptSnoc<Y(!new)>(xor: (Y, Y) -> Y, e: seq<Y> -> seq<Y>, iv: seq<Y>, m: seq<Y>, b: seq<Y>)
    requires OnBlocks(e) && |iv| == 16 && |m| % 16 == 0 && |b| == 16
    ensures var c, y := CbcEncrypt(xor, e, iv, m), e(Zip(xor, LastBlock(iv, CbcEncrypt(xor, e, iv, m)), b));
            CbcEncrypt(xor, e, iv, m + b) == c + y && LastBlock(iv, c + y) == y
  {
    SplitAt(m, b);
    SplitAt(CbcEncrypt(xor, e, iv, m), e(Zip(xor, LastBlock(iv, CbcEncrypt(xor, e, iv, m)), b)));
  }

  lemma CbcDecryptSnoc<Y(!new)>(xor: (Y, Y) -> Y, d: seq<Y> -> seq<Y>, iv: seq<Y>, c: seq<Y>, b: seq<Y>)
    requires OnBlocks(d) && |iv| == 16 && |c| % 16 == 0 && |b| == 16
    ensures CbcDecrypt(xor, d, iv, c + b) == CbcDecrypt(xor, d, iv, c) + Zip(xor, d(b), LastBlock(iv, c))
    ensures LastBlock(iv, c + b) == b
  {
    SplitAt(c, b);
  }

  // Decryption undoes encryption.

  lemma {:induction false} EcbRoundTrip<Y(!new)>(d: seq<Y> -> seq<Y>, e: seq<Y> -> seq<Y>, m: seq<Y>)
    requires OnBlocks(d) && OnBlocks(e) && Undoes(d, e) && |m| % 16 == 0
    ensures Ecb(d, Ecb(e, m)) == m
  {
    if m != [] {
      var n := |m| - 16;
      CutLast(m, n);
      EcbRoundTrip(d, e, m[..n]);
      EcbSnoc(d, Ecb(e, m[..n]), e(m[n..]));
    }
  }

  lemma {:induction false} CbcRoundTrip<Y(!new)>(xor: (Y, Y) -> Y, d: seq<Y> -> seq<Y>, e: seq<Y> -> seq<Y>, iv: seq<Y>, m: seq<Y>)
    requires OnBlocks(d) && OnBlocks(e) && Undoes(d, e) && IsXor(xor) && |iv| == 16 && |m| % 16 == 0
    ensures CbcDecrypt(xor, d, iv, CbcEncrypt(xor, e, iv, m)) == m
  {
    if m != [] {
      var n := |m| - 16;
      CutLast(m, n);
      CbcRoundTrip(xor, d, e, iv, m[..n]);
      var c := CbcEncrypt(xor, e, iv, m[..n]);
      ZipUndoes(xor, LastBlock(iv, c), m[n..]);
      CbcDecryptSnoc(xor, d, iv, c, e(Zip(xor, LastBlock(iv, c), m[n..])));
    }
  }

  lemma Commutes<Y(!new)>(xor: (Y, Y) -> Y, x: Y, y: Y)
    requires IsXor(xor)
    ensures xor(x, y) == xor(y, x)
  {
    assert xor(xor(x, y), x) == y;
    assert xor(xor(xor(x, y), x), x) == xor(x, y);
  }

  lemma ZipCommutes<Y(!new)>(xor: (Y, Y) -> Y, a: seq<Y>, b: seq<Y>)
    requires IsXor(xor) && |a| == |b|
    ensures Zip(xor, a, b) == Zip(xor, b, a)
  {
    forall i | 0 <= i < |a|
      ensures xor(a[i], b[i]) == xor(b[i], a[i])
    {
      Commutes(xor, a[i], b[i]);
    }
  }

  // And encryption undoes decryption.

  lemma {:induction false} CbcBack<Y(!new)>(xor: (Y, Y) -> Y, d: seq<Y> -> seq<Y>, e: seq<Y> -> seq<Y>, iv: seq<Y>, c: seq<Y>)
    requires OnBlocks(d) && OnBlocks(e) && Undoes(e, d) && IsXor(xor) && |iv| == 16 && |c| % 16 == 0
    ensures CbcEncrypt(xor, e, iv, CbcDecrypt(xor, d, iv, c)) == c
  {
    if c != [] {
      var n := |c| - 16;
      var front, x := c[..n], c[n..];
      CutLast(c, n);
      CbcBack(xor, d, e, iv, front);
      var m, v := CbcDecrypt(xor, d, iv, front), LastBlock(iv, front);
      ZipCommutes(xor, d(x), v);
      ZipUndoes(xor, v, d(x));
      hide IsXor, Zip;
      CbcDecryptSnoc(xor, d, iv, front, x);
      CbcEncryptSnoc(xor, e, iv, m, Zip(xor, d(x), v));
    }
  }

  // Going on from the IV that a call leaves is one call on the concatenation.

  lemma Nothing<Y(!new)>(xor: (Y, Y) -> Y, e: seq<Y> -> seq<Y>, iv: seq<Y>, a: seq<Y>)
    requires OnBlocks(e) && |iv| == 16
    ensures CbcEncrypt(xor, e, iv, []) == [] && CbcDecrypt(xor, e, iv, []) == [] && a + [] == a
  {
  }

  lemma EcbNothing<Y(!new)>(e: seq<Y> -> seq<Y>, a: seq<Y>)
    requires OnBlocks(e)
    ensures Ecb(e, []) == [] && a + [] == a
  {
  }

  lemma {:induction false} EcbConcat<Y(!new)>(e: seq<Y> -> seq<Y>, a: seq<Y>, b: seq<Y>)
    requires OnBlocks(e) && |a| % 16 == 0 && |b| % 16 == 0
    ensures Ecb(e, a + b) == Ecb(e, a) + Ecb(e, b)
  {
    hide Ecb;
    if b == [] {
      EcbNothing(e, a);
      EcbNothing(e, Ecb(e, a));
    } else {
      var n := |b| - 16;
      EcbConcat(e, a, b[..n]);
      EcbSnoc(e, a + b[..n], b[n..]);
      EcbSnoc(e, b[..n], b[n..]);
      Regroup(a, b, n);
      CutLast(b, n);
      Assoc(Ecb(e, a), Ecb(e, b[..n]), e(b[n..]));
    }
  }

  lemma LastOfConcat<T>(iv: seq<T>, a: seq<T>, b: seq<T>)
    requires |iv| == 16 && |a| % 16 == 0 && |b| % 16 == 0
    ensures LastBlock(iv, a + b) == LastBlock(LastBlock(iv, a), b)
  {
    if b == [] {
      assert a + b == a;
    } else {
      assert (a + b)[|a + b| - 16..] == b[|b| - 16..];
    }
  }

  lemma {:induction false} CbcEncryptConcat<Y(!new)>(xor: (Y, Y) -> Y, e: seq<Y> -> seq<Y>, iv: seq<Y>, a: seq<Y>, b: seq<Y>)
    requires OnBlocks(e) && |iv| == 16 && |a| % 16 == 0 && |b| % 16 == 0
    ensures var c := CbcEncrypt(xor, e, iv, a);
            CbcEncrypt(xor, e, iv, a + b) == c + CbcEncrypt(xor, e, LastBlock(iv, c), b)
  {
    hide CbcEncrypt, LastBlock, Zip;
    var c := CbcEncrypt(xor, e, iv, a);
    var v := LastBlock(iv, c);
    if b == [] {
      Nothing(xor, e, v, a);
      Nothing(xor, e, v, c);
    } else {
      var n := |b| - 16;
      var front, x := b[..n], b[n..];
      var y := CbcEncrypt(xor, e, v, front);
      CbcEncryptConcat(xor, e, iv, a, front);
      CbcEncryptSnoc(xor, e, iv, a + front, x);
      CbcEncryptSnoc(xor, e, v, front, x);
      LastOfConcat(iv, c, y);
      Regroup(a, b, n);
      CutLast(b, n);
      Assoc(c, y, e(Zip(xor, LastBlock(v, y), x)));
    }
  }

  lemma {:induction false} CbcDecryptConcat<Y(!new)>(xor: (Y, Y) -> Y, d: seq<Y> -> seq<Y>, iv: seq<Y>, a: seq<Y>, b: seq<Y>)
    requires OnBlocks(d) && |iv| == 16 && |a| % 16 == 0 && |b| % 16 == 0
    ensures CbcDecrypt(xor, d, iv, a + b) == CbcDecrypt(xor, d, iv, a) + CbcDecrypt(xor, d, LastBlock(iv, a), b)
  {
    hide CbcDecrypt, LastBlock, Zip;
    var v := LastBlock(iv, a);
    if b == [] {
      Nothing(xor, d, v, a);
      Nothing(xor, d, v, CbcDecrypt(xor, d, iv, a));
    } else {
      var n := |b| - 16;
      var front, x := b[..n], b[n..];
      CbcDecryptConcat(xor, d, iv, a, front);
      CbcDecryptSnoc(xor, d, iv, a + front, x);
      CbcDecryptSnoc(xor, d, v, front, x);
      LastOfConcat(iv, a, front);
      Regroup(a, b, n);
      CutLast(b, n);
      Assoc(CbcDecrypt(xor, d, iv, a), CbcDecrypt(xor, d, v, front), Zip(xor, d(x), LastBlock(v, front)));
    }
  }

  // So a prefix of whole blocks gives a prefix of the output.

  lemma WholeRest(len: nat, n: nat)
    requires len % 16 == 0 && n % 16 == 0 && n <= len
    ensures (len - n) % 16 == 0
  {
  }

  lemma EcbPrefix<Y(!new)>(e: seq<Y> -> seq<Y>, m: seq<Y>, n: nat)
    requires OnBlocks(e) && n <= |m| && n % 16 == 0 && |m| % 16 == 0
    ensures Ecb(e, m[..n]) == Ecb(e, m)[..n]
  {
    hide Ecb, OnBlocks;
    CutLast(m, n);
    var front, rest := m[..n], m[n..];
    WholeRest(|m|, n);
    EcbConcat(e, front, rest);
    SplitAt(Ecb(e, front), Ecb(e, rest));
  }

  lemma CbcEncryptPrefix<Y(!new)>(xor: (Y, Y) -> Y, e: seq<Y> -> seq<Y>, iv: seq<Y>, m: seq<Y>, n: nat)
    requires OnBlocks(e) && |iv| == 16 && n <= |m| && n % 16 == 0 && |m| % 16 == 0
    ensures CbcEncrypt(xor, e, iv, m[..n]) == CbcEncrypt(xor, e, iv, m)[..n]
  {
    hide CbcEncrypt, LastBlock;
    CutLast(m, n);
    var c := CbcEncrypt(xor, e, iv, m[..n]);
    CbcEncryptConcat(xor, e, iv, m[..n], m[n..]);
    SplitAt(c, CbcEncrypt(xor, e, LastBlock(iv, c), m[n..]));
  }

  lemma CbcDecryptPrefix<Y(!new)>(xor: (Y, Y) -> Y, d: seq<Y> -> seq<Y>, iv: seq<Y>, c: seq<Y>, n: nat)
    requires OnBlocks(d) && |iv| == 16 && n <= |c| && n % 16 == 0 && |c| % 16 == 0
    ensures CbcDecrypt(xor, d, iv, c[..n]) == CbcDecrypt(xor, d, iv, c)[..n]
  {
    hide CbcDecrypt, LastBlock;
    CutLast(c, n);
    CbcDecryptConcat(xor, d, iv, c[..n], c[n..]);
    SplitAt(CbcDecrypt(xor, d, iv, c[..n]), CbcDecrypt(xor, d, LastBlock(iv, c[..n]), c[n..]));
  }

  // Block i of the output, from the input and the output before it: the formulas of the standard

  lemma PrefixBlock<T>(c: seq<T>, n: nat)
    requires n + 16 <= |c|
    ensures c[..n + 16][..n] == c[..n] && c[..n + 16][n..] == c[n..n + 16]
    ensures n >= 16 ==> c[..n][n - 16..] == c[n - 16..n]
  {
  }

  lemma EcbBlock<Y(!new)>(e: seq<Y> -> seq<Y>, m: seq<Y>, n: nat)
    requires OnBlocks(e) && |m| % 16 == 0 && n % 16 == 0 && n + 16 <= |m|
    ensures Ecb(e, m)[n..n + 16] == e(m[n..n + 16])
  {
    hide Ecb;
    var c := Ecb(e, m);
    EcbPrefix(e, m, n + 16);
    EcbPrefix(e, m, n);
    PrefixBlock(m, n);
    PrefixBlock(c, n);
    CutLast(m[..n + 16], n);
    EcbSnoc(e, m[..n], m[n..n + 16]);
    SplitAt(c[..n], e(m[n..n + 16]));
  }

  lemma CbcEncryptBlock<Y(!new)>(xor: (Y, Y) -> Y, e: seq<Y> -> seq<Y>, iv: seq<Y>, m: seq<Y>, n: nat)
    requires OnBlocks(e) && |iv| == 16 && |m| % 16 == 0 && n % 16 == 0 && n + 16 <= |m|
    ensures var c := CbcEncrypt(xor, e, iv, m);
            |Before(iv, c, n)| == 16 && c[n..n + 16] == e(Zip(xor, Before(iv, c, n), m[n..n + 16]))
  {
    hide CbcEncrypt, Zip;
    var c := CbcEncrypt(xor, e, iv, m);
    CbcEncryptPrefix(xor, e, iv, m, n + 16);
    CbcEncryptPrefix(xor, e, iv, m, n);
    PrefixBlock(m, n);
    PrefixBlock(c, n);
    CutLast(m[..n + 16], n);
    CbcEncryptSnoc(xor, e, iv, m[..n], m[n..n + 16]);
    assert LastBlock(iv, c[..n]) == Before(iv, c, n);
    SplitAt(c[..n], e(Zip(xor, Before(iv, c, n), m[n..n + 16])));
  }

  lemma CbcDecryptBlock<Y(!new)>(xor: (Y, Y) -> Y, d: seq<Y> -> seq<Y>, iv: seq<Y>, c: seq<Y>, n: nat)
    requires OnBlocks(d) && |iv| == 16 && |c| % 16 == 0 && n % 16 == 0 && n + 16 <= |c|
    ensures |Before(iv, c, n)| == 16 && CbcDecrypt(xor, d, iv, c)[n..n + 16] == Zip(xor, d(c[n..n + 16]), Before(iv, c, n))
  {
    hide CbcDecrypt, Zip;
    var m := CbcDecrypt(xor, d, iv, c);
    CbcDecryptPrefix(xor, d, iv, c, n + 16);
    CbcDecryptPrefix(xor, d, iv, c, n);
    PrefixBlock(m, n);
    PrefixBlock(c, n);
    CutLast(c[..n + 16], n);
    CbcDecryptSnoc(xor, d, iv, c[..n], c[n..n + 16]);
    assert LastBlock(iv, c[..n]) == Before(iv, c, n);
    SplitAt(m[..n], Zip(xor, d(c[n..n + 16]), Before(iv, c, n)));
  }
}
