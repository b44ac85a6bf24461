/**
  Sixteen-byte blocks and their place in byte buffers.
*/
module Blocks {

  type Block = b: seq<bv8> | |b| == 16 witness seq(16, _ => 0)

  function BlockFrom(s: seq<bv8>, n: nat): Block
    requires n + 16 <= |s|
  {
    s[n..n + 16]
  }

  // A block cipher on blocks given as sequences of sixteen of any type.
  ghost predicate OnBlocks<Y(!new)>(e: seq<Y> -> seq<Y>) {
    forall b {:trigger e(b)} :: |b| == 16 ==> |e(b)| == 16
  }

  ghost predicate IsXor<Y(!new)>(xor: (Y, Y) -> Y) {
    && (forall x, y {:trigger xor(x, xor(x, y))} :: xor(x, xor(x, y)) == y)
    && (forall x, y {:trigger xor(xor(x, y), x)} :: xor(xor(x, y), x) == y)
    && (forall x, y {:trigger xor(xor(x, y), y)} :: xor(xor(x, y), y) == x)
  }

  // f applied n times
  function Iterate<T>(f: T -> T, n: nat, x: T): T {
    if n == 0 then x else f(Iterate(f, n - 1, x))
  }

  // The block before place n of c, or the IV
  function Before<T>(iv: seq<T>, c: seq<T>, n: nat): (b: seq<T>)
    requires |iv| == 16 && n <= |c|
    ensures |b| == 16
  {
    if n < 16 then iv else c[n - 16..n]
  }

  function Flatten<Y>(chunks: seq<seq<Y>>): seq<Y> {
    if chunks == [] then [] else chunks[0] + Flatten(chunks[1..])
  }

  // The four bytes of a word in memory
  datatype Four<Y> = Four(b0: Y, b1: Y, b2: Y, b3: Y) {
    function Zip(f: (Y, Y) -> Y, other: Four<Y>): Four<Y> {
      Four(f(b0, other.b0), f(b1, other.b1), f(b2, other.b2), f(b3, other.b3))
    }

    function Bytes(): seq<Y> {
      [b0, b1, b2, b3]
    }
  }

  function Zip<Y>(f: (Y, Y) -> Y, a: seq<Y>, b: seq<Y>): (r: seq<Y>)
    requires |a| == |b|
    ensures |r| == |a| && forall i :: 0 <= i < |a| ==> r[i] == f(a[i], b[i])
  {
    seq(|a|, i requires 0 <= i < |a| => f(a[i], b[i]))
  }

  // out with b stored at position at.
  function Stored<Y>(out: seq<Y>, at: nat, b: seq<Y>): (r: seq<Y>)
    requires at + |b| <= |out|
    ensures |r| == |out|
  {
    out[..at] + b + out[at + |b|..]
  }

  lemma StoredFront<Y>(out: seq<Y>, at: nat, b: seq<Y>)
    requires at + |b| <= |out|
    ensures Stored(out, at, b)[..at + |b|] == out[..at] + b
  {
  }

  // memcpy(output + at, b, |b|)
  method StoreBlock<Y>(output: array<Y>, at: nat, b: seq<Y>)
    requires at + |b| <= output.Length
    modifies output
    ensures output[..] == Stored(old(output[..]), at, b)
  {
    forall i | 0 <= i < |b| {
      output[at + i] := b[i];
    }
  }
}
