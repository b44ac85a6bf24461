/**
  CBC with ciphertext stealing as a file format: the reference for encfile and decfile of aesxam.c.
  The file is the IV and then as many bytes as there are in the message; a message shorter than a
  block is XORed with the IV, and the last sixteen bytes of the two together are encrypted.
*/
module CiphertextStealing {
  import opened Sequences
  import opened Blocks
  import opened BlockChaining

  // The last whole block y and the partial block r behind it: r XOR y, filled up with the end of y.
  function Stolen<Y(!new)>(xor: (Y, Y) -> Y, y: seq<Y>, r: seq<Y>): (x: seq<Y>)
    requires |y| == 16 && |r| <= 16
    ensures |x| == 16
  {
    Zip(xor, r, y[..|r|]) + y[|r|..]
  }

  function ShortFile<Y(!new)>(xor: (Y, Y) -> Y, e: seq<Y> -> seq<Y>, iv: seq<Y>, m: seq<Y>): (f: seq<Y>)
    requires OnBlocks(e) && |iv| == 16 && |m| < 16
    ensures |f| == |m| + 16
  {
    var b := iv + Zip(xor, m, iv[..|m|]);
    b[..|m|] + e(b[|m|..])
  }

  // The whole blocks but the last, then the partial block with stolen ciphertext, then the part of
  // the last whole block that was not stolen
  function StolenFile<Y(!new)>(xor: (Y, Y) -> Y, e: seq<Y> -> seq<Y>, iv: seq<Y>, c: seq<Y>, y: seq<Y>, r: seq<Y>): (f: seq<Y>)
    requires OnBlocks(e) && |iv| == |y| == 16 && |r| <= 16
    ensures |f| == |iv| + |c| + 16 + |r|
  {
    iv + c + e(Stolen(xor, y, r)) + y[..|r|]
  }

  function Encrypted<Y(!new)>(xor: (Y, Y) -> Y, e: seq<Y> -> seq<Y>, iv: seq<Y>, m: seq<Y>): (f: seq<Y>)
    requires OnBlocks(e) && |iv| == 16
    ensures |f| == |m| + 16
  {
    var k := |m| - |m| % 16;
    if k == 0 then ShortFile(xor, e, iv, m)
    else
      var c := CbcEncrypt(xor, e, iv, m[..k]);
      if k == |m| then iv + c else StolenFile(xor, e, iv, c[..k - 16], c[k - 16..], m[k..])
  }

  function ShortMessage<Y(!new)>(xor: (Y, Y) -> Y, d: seq<Y> -> seq<Y>, f: seq<Y>): (m: seq<Y>)
    requires OnBlocks(d) && 16 <= |f| < 32
    ensures |m| + 16 == |f|
  {
    var r := |f| - 16;
    var b := f[..r] + d(f[r..]);
    Zip(xor, b[..r], b[16..])
  }

  function StolenMessage<Y(!new)>(xor: (Y, Y) -> Y, d: seq<Y> -> seq<Y>, iv: seq<Y>, c: seq<Y>, z: seq<Y>, t: seq<Y>): (m: seq<Y>)
    requires OnBlocks(d) && |iv| == |z| == 16 && |c| % 16 == 0 && |t| <= 16
    ensures |m| == |c| + 16 + |t|
  {
    var x := d(z);
    CbcDecrypt(xor, d, iv, c + (t + x[|t|..])) + Zip(xor, x[..|t|], t)
  }

  // A file has at least an IV.
  function Decrypted<Y(!new)>(xor: (Y, Y) -> Y, d: seq<Y> -> seq<Y>, f: seq<Y>): (m: seq<Y>)
    requires OnBlocks(d) && |f| >= 16
    ensures |m| + 16 == |f|
  {
    var k := |f| - |f| % 16;
    if k == 16 then ShortMessage(xor, d, f)
    else if k == |f| then CbcDecrypt(xor, d, f[..16], f[16..])
    else StolenMessage(xor, d, f[..16], f[16..k - 16], f[k - 16..k], f[k..])
  }

  lemma ShortParts<T>(iv: seq<T>, z: seq<T>, r: nat, x: seq<T>)
    requires |iv| == 16 && |z| == r < 16 && |x| == 16
    ensures var b := iv + z; var f := b[..r] + x;
            && |b[r..]| == 16 && f[..r] == b[..r] && f[r..] == x
            && b[..r] + b[r..] == b && b[..r] == iv[..r] && b[16..] == z
  {
  }

  lemma ShortRoundTrip<Y(!new)>(xor: (Y, Y) -> Y, d: seq<Y> -> seq<Y>, e: seq<Y> -> seq<Y>, iv: seq<Y>, m: seq<Y>)
    requires OnBlocks(d) && OnBlocks(e) && Undoes(d, e) && IsXor(xor) && |iv| == 16 && |m| < 16
    ensures ShortMessage(xor, d, ShortFile(xor, e, iv, m)) == m
  {
    var z := Zip(xor, m, iv[..|m|]);
    var b := iv + z;
    ShortParts(iv, z, |m|, e(b[|m|..]));
    ZipCommutes(xor, m, iv[..|m|]);
    ZipUndoes(xor, iv[..|m|], m);
  }

  lemma StolenRoundTrip<Y(!new)>(xor: (Y, Y) -> Y, d: seq<Y> -> seq<Y>, e: seq<Y> -> seq<Y>, iv: seq<Y>, c: seq<Y>, y: seq<Y>, r: seq<Y>)
    requires OnBlocks(d) && OnBlocks(e) && Undoes(d, e) && IsXor(xor) && |iv| == |y| == 16 && |r| <= 16 && |c| % 16 == 0
    ensures StolenMessage(xor, d, iv, c, e(Stolen(xor, y, r)), y[..|r|]) == CbcDecrypt(xor, d, iv, c + y) + r
  {
    Unstolen(xor, y, r);
  }

  // What the decrypted stolen block gives back
  lemma Unstolen<Y(!new)>(xor: (Y, Y) -> Y, y: seq<Y>, r: seq<Y>)
    requires IsXor(xor) && |y| == 16 && |r| <= 16
    ensures var x := Stolen(xor, y, r);
            y[..|r|] + x[|r|..] == y && Zip(xor, x[..|r|], y[..|r|]) == r
  {
    var x := Stolen(xor, y, r);
    assert x[..|r|] == Zip(xor, r, y[..|r|]);
  }

  lemma Parts<T>(iv: seq<T>, c: seq<T>, z: seq<T>, t: seq<T>)
    requires |iv| == |z| == 16
    ensures var f, k := iv + c + z + t, 16 + |c| + 16;
            f[..16] == iv && f[16..k - 16] == c && f[k - 16..k] == z && f[k..] == t
  {
  }

  lemma StolenParts<Y(!new)>(xor: (Y, Y) -> Y, d: seq<Y> -> seq<Y>, iv: seq<Y>, c: seq<Y>, z: seq<Y>, t: seq<Y>)
    requires OnBlocks(d) && |iv| == |z| == 16 && |c| % 16 == 0 && 0 < |t| < 16
    ensures Decrypted(xor, d, iv + c + z + t) == StolenMessage(xor, d, iv, c, z, t)
  {
    hide StolenMessage, CbcDecrypt;
    Parts(iv, c, z, t);
    assert (16 + |c| + 16 + |t|) % 16 == |t|;
  }

  lemma StolenCase<Y(!new)>(xor: (Y, Y) -> Y, d: seq<Y> -> seq<Y>, e: seq<Y> -> seq<Y>, iv: seq<Y>, m: seq<Y>, k: nat, c: seq<Y>)
    requires OnBlocks(d) && OnBlocks(e) && Undoes(d, e) && IsXor(xor) && |iv| == 16
    requires 16 <= k < |m| < k + 16 && k % 16 == 0 && |c| == k && CbcDecrypt(xor, d, iv, c) == m[..k]
    ensures Decrypted(xor, d, StolenFile(xor, e, iv, c[..k - 16], c[k - 16..], m[k..])) == m
  {
    hide ShortMessage, StolenMessage, Stolen, CbcDecrypt, Decrypted, Undoes, IsXor;
    var c', y, r := c[..k - 16], c[k - 16..], m[k..];
    CutLast(c, k - 16);
    CutLast(m, k);
    StolenParts(xor, d, iv, c', e(Stolen(xor, y, r)), y[..|r|]);
    StolenRoundTrip(xor, d, e, iv, c', y, r);
  }

  // Decryption gives back every message, of any length, under every IV.
  lemma RoundTrip<Y(!new)>(xor: (Y, Y) -> Y, d: seq<Y> -> seq<Y>, e: seq<Y> -> seq<Y>, iv: seq<Y>, m: seq<Y>)
    requires OnBlocks(d) && OnBlocks(e) && Undoes(d, e) && IsXor(xor) && |iv| == 16
    ensures |Encrypted(xor, e, iv, m)| == |m| + 16
    ensures Decrypted(xor, d, Encrypted(xor, e, iv, m)) == m
  {
    hide ShortFile, ShortMessage, StolenMessage, Stolen, CbcEncrypt, CbcDecrypt, Undoes, IsXor;
    var k := |m| - |m| % 16;
    if k == 0 {
      ShortRoundTrip(xor, d, e, iv, m);
    } else {
      var c := CbcEncrypt(xor, e, iv, m[..k]);
      CbcRoundTrip(xor, d, e, iv, m[..k]);
      if k == |m| {
        assert m[..k] == m;
        SplitAt(iv, c);
      } else {
        StolenCase(xor, d, e, iv, m, k, c);
      }
    }
  }

  // What the file consists of.  With fewer bytes than a block: the beginning of the IV, and one encrypted
  // block of the rest of the IV and the message XORed with that beginning.
  lemma ShortFileIs<Y(!new)>(xor: (Y, Y) -> Y, e: seq<Y> -> seq<Y>, iv: seq<Y>, m: seq<Y>)
    requires OnBlocks(e) && |iv| == 16 && |m| < 16
    ensures var f, r := Encrypted(xor, e, iv, m), |m|;
            f[..r] == iv[..r] && f[r..] == e(iv[r..] + Zip(xor, m, iv[..r]))
  {
    var z := Zip(xor, m, iv[..|m|]);
    assert (iv + z)[..|m|] == iv[..|m|] && (iv + z)[|m|..] == iv[|m|..] + z;
  }

  // Otherwise it is the IV and the CBC encryption of the message filled up with zeros to whole blocks, the
  // last two blocks exchanged and cut to length (CBC-CS2 and CBC-CS3 of the addendum to SP 800-38A).
  lemma LongFileIs<Y(!new)>(xor: (Y, Y) -> Y, e: seq<Y> -> seq<Y>, iv: seq<Y>, m: seq<Y>, zeros: seq<Y>)
    requires OnBlocks(e) && IsXor(xor) && |iv| == 16 && |m| >= 16 && |zeros| < 16 && (|m| + |zeros|) % 16 == 0
    requires forall i, x :: 0 <= i < |zeros| ==> xor(x, zeros[i]) == x
    ensures var f, c := Encrypted(xor, e, iv, m), CbcEncrypt(xor, e, iv, m + zeros);
            if zeros == [] then f == iv + c
            else var k := |c| - 32;
                 f == iv + c[..k] + c[k + 16..] + c[k..k + 16][..16 - |zeros|]
  {
    hide CbcEncrypt, StolenFile;
    if zeros == [] {
      assert m[..|m|] == m && m + zeros == m;
    } else {
      StolenFileIs(xor, e, iv, m, zeros);
    }
  }

  lemma StolenFileIs<Y(!new)>(xor: (Y, Y) -> Y, e: seq<Y> -> seq<Y>, iv: seq<Y>, m: seq<Y>, zeros: seq<Y>)
    requires OnBlocks(e) && IsXor(xor) && |iv| == 16 && |m| >= 16 && 0 < |zeros| < 16 && (|m| + |zeros|) % 16 == 0
    requires forall i, x :: 0 <= i < |zeros| ==> xor(x, zeros[i]) == x
    ensures var f, c := Encrypted(xor, e, iv, m), CbcEncrypt(xor, e, iv, m + zeros);
            var k := |c| - 32;
            f == iv + c[..k] + c[k + 16..] + c[k..k + 16][..16 - |zeros|]
  {
    hide CbcEncrypt, LastBlock;
    var n := |m| + |zeros| - 16;
    assert n == |m| - |m| % 16 && n >= 16;
    var whole, r := m[..n], m[n..];
    var c := CbcEncrypt(xor, e, iv, whole);
    var y := c[n - 16..];
    assert m + zeros == whole + (r + zeros);
    CbcEncryptSnoc(xor, e, iv, whole, r + zeros);
    assert LastBlock(iv, c) == y by { LastOf(iv, c); }
    PaddedBlock(xor, y, r, zeros);
    Exchanged(c, e(Stolen(xor, y, r)), n, |r|);
    assert StolenFile(xor, e, iv, c[..n - 16], y, r) == iv + c[..n - 16] + e(Stolen(xor, y, r)) + y[..|r|];
  }

  lemma LastOf<T>(iv: seq<T>, c: seq<T>)
    requires |iv| == 16 && |c| % 16 == 0 && c != []
    ensures LastBlock(iv, c) == c[|c| - 16..]
  {
  }

  lemma Exchanged<T>(c: seq<T>, x: seq<T>, n: nat, r: nat)
    requires |c| == n >= 16 && |x| == 16 && r < 16
    ensures var d := c + x;
            d[..n - 16] == c[..n - 16] && d[n..] == x && d[n - 16..n] == c[n - 16..]
  {
  }

  lemma PaddedBlock<Y(!new)>(xor: (Y, Y) -> Y, y: seq<Y>, r: seq<Y>, zeros: seq<Y>)
    requires IsXor(xor) && |y| == 16 && |r| + |zeros| == 16
    requires forall i, x :: 0 <= i < |zeros| ==> xor(x, zeros[i]) == x
    ensures Zip(xor, y, r + zeros) == Stolen(xor, y, r)
  {
    forall i | 0 <= i < 16
      ensures Zip(xor, y, r + zeros)[i] == Stolen(xor, y, r)[i]
    {
      if i < |r| {
        Commutes(xor, y[i], r[i]);
      }
    }
  }

  // In the other direction: every file of at least a block is the encryption of what it decrypts to, under
  // the IV it begins with.  A file of less than two blocks has only the beginning of its IV, and the rest is
  // encrypted with the message.

  function IvOf<Y(!new)>(d: seq<Y> -> seq<Y>, f: seq<Y>): (iv: seq<Y>)
    requires OnBlocks(d) && |f| >= 16
    ensures |iv| == 16
  {
    if |f| >= 32 then f[..16] else f[..|f| - 16] + d(f[|f| - 16..])[..32 - |f|]
  }

  lemma FileBack<Y(!new)>(xor: (Y, Y) -> Y, d: seq<Y> -> seq<Y>, e: seq<Y> -> seq<Y>, f: seq<Y>)
    requires OnBlocks(d) && OnBlocks(e) && Undoes(e, d) && IsXor(xor) && |f| >= 16
    ensures Encrypted(xor, e, IvOf(d, f), Decrypted(xor, d, f)) == f
  {
    var k := |f| - |f| % 16;
    if |f| < 32 {
      ShortBack(xor, d, e, f);
    } else if k == |f| {
      WholeBack(xor, d, e, f);
    } else {
      LongBack(xor, d, e, f, k);
    }
  }

  lemma ShortBack<Y(!new)>(xor: (Y, Y) -> Y, d: seq<Y> -> seq<Y>, e: seq<Y> -> seq<Y>, f: seq<Y>)
    requires OnBlocks(d) && OnBlocks(e) && Undoes(e, d) && IsXor(xor) && 16 <= |f| < 32
    ensures Encrypted(xor, e, IvOf(d, f), Decrypted(xor, d, f)) == f
  {
    var r, iv, m := |f| - 16, IvOf(d, f), Decrypted(xor, d, f);
    var x := d(f[r..]);
    var b := f[..r] + x;
    assert |f| - |f| % 16 == 16;
    assert b[..r] == f[..r] == iv[..r] && b[16..] == x[16 - r..] && iv[r..] == x[..16 - r];
    assert m == Zip(xor, f[..r], x[16 - r..]);
    ZipUndoes(xor, f[..r], x[16 - r..]);
    ZipCommutes(xor, f[..r], x[16 - r..]);
    assert Zip(xor, m, iv[..r]) == x[16 - r..] by {
      ZipCommutes(xor, m, f[..r]);
    }
    assert iv[r..] + Zip(xor, m, iv[..r]) == x;
    hide IsXor, Zip, ShortFile, ShortMessage;
    ShortFileIs(xor, e, iv, m);
    assert e(x) == f[r..];
    CutLast(f, r);
    CutLast(Encrypted(xor, e, iv, m), r);
  }

  lemma WholeBack<Y(!new)>(xor: (Y, Y) -> Y, d: seq<Y> -> seq<Y>, e: seq<Y> -> seq<Y>, f: seq<Y>)
    requires OnBlocks(d) && OnBlocks(e) && Undoes(e, d) && IsXor(xor) && |f| >= 32 && |f| % 16 == 0
    ensures Encrypted(xor, e, IvOf(d, f), Decrypted(xor, d, f)) == f
  {
    hide CbcEncrypt, CbcDecrypt, Undoes, IsXor, ShortFile, StolenFile, ShortMessage, StolenMessage;
    var m := CbcDecrypt(xor, d, f[..16], f[16..]);
    CbcBack(xor, d, e, f[..16], f[16..]);
    assert m[..|m|] == m;
    CutLast(f, 16);
  }

  lemma LongBack<Y(!new)>(xor: (Y, Y) -> Y, d: seq<Y> -> seq<Y>, e: seq<Y> -> seq<Y>, f: seq<Y>, k: nat)
    requires OnBlocks(d) && OnBlocks(e) && Undoes(e, d) && IsXor(xor) && 32 <= k < |f| < k + 16 && k % 16 == 0
    ensures Encrypted(xor, e, IvOf(d, f), Decrypted(xor, d, f)) == f
  {
    hide CbcEncrypt, CbcDecrypt, IsXor, ShortFile, ShortMessage, Stolen, Zip;
    var iv, c, z, t := f[..16], f[16..k - 16], f[k - 16..k], f[k..];
    var x := d(z);
    var y, r := t + x[|t|..], Zip(xor, x[..|t|], t);
    var whole := CbcDecrypt(xor, d, iv, c + y);
    var m := whole + r;
    assert k == |f| - |f| % 16;
    assert Decrypted(xor, d, f) == m;
    CbcBack(xor, d, e, iv, c + y);
    StolenBack(xor, x, t);
    SplitAt(whole, r);
    SplitAt(c, y);
    assert |m| - |m| % 16 == k - 16;
    assert Encrypted(xor, e, iv, m) == StolenFile(xor, e, iv, c, y, r);
    assert y[..|r|] == t && e(x) == z;
    Rejoined(f, k);
  }

  lemma Rejoined<T>(f: seq<T>, k: nat)
    requires 32 <= k <= |f|
    ensures f[..16] + f[16..k - 16] + f[k - 16..k] + f[k..] == f
  {
  }

  lemma StolenBack<Y(!new)>(xor: (Y, Y) -> Y, x: seq<Y>, t: seq<Y>)
    requires IsXor(xor) && |x| == 16 && |t| < 16
    ensures Stolen(xor, t + x[|t|..], Zip(xor, x[..|t|], t)) == x
  {
    var y := t + x[|t|..];
    var z := Zip(xor, x[..|t|], t);
    assert y[..|t|] == t && y[|t|..] == x[|t|..];
    assert Zip(xor, z, t) == x[..|t|];
  }
}
