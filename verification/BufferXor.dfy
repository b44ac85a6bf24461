/**
  XOR of sixteen bytes of two buffers into a third, which may be one of them: by 32-bit words where
  the buffers are aligned, else by bytes (FAST_BUFFER_OPERATIONS in aes_modes.c).
*/
module BufferXor {
  import opened Blocks

  ghost predicate WordwiseXor<Y(!new)>(xor: (Y, Y) -> Y, xor32: (Four<Y>, Four<Y>) -> Four<Y>) {
    forall a, b :: xor32(a, b) == a.Zip(xor, b)
  }

  method Load32<Y>(buffer: array<Y>, at: nat) returns (w: Four<Y>)
    requires at + 4 <= buffer.Length
    ensures w.Bytes() == buffer[..][at..at + 4]
  {
    w := Four(buffer[at], buffer[at + 1], buffer[at + 2], buffer[at + 3]);
  }

  method Store32<Y>(buffer: array<Y>, at: nat, w: Four<Y>)
    requires at + 4 <= buffer.Length
    modifies buffer
    ensures buffer[..] == Stored(old(buffer[..]), at, w.Bytes())
  {
    buffer[at], buffer[at + 1], buffer[at + 2], buffer[at + 3] := w.b0, w.b1, w.b2, w.b3;
  }

  // The first n bytes of out from position at are done; the rest of the buffers is as before.
  ghost predicate XorDone<Y>(xor: (Y, Y) -> Y, out: seq<Y>, out0: seq<Y>, at: nat, a: seq<Y>, b: seq<Y>, n: nat)
    requires at + 16 <= |out0| && |a| == |b| == 16 && n <= 16
  {
    && |out| == |out0|
    && (forall k :: 0 <= k < |out0| && !(at <= k < at + n) ==> out[k] == out0[k])
    && (forall k :: 0 <= k < n ==> out[at + k] == xor(a[k], b[k]))
  }

  lemma XorAllDone<Y>(xor: (Y, Y) -> Y, out: seq<Y>, out0: seq<Y>, at: nat, a: seq<Y>, b: seq<Y>)
    requires at + 16 <= |out0| && |a| == |b| == 16 && XorDone(xor, out, out0, at, a, b, 16)
    ensures out == Stored(out0, at, Zip(xor, a, b))
  {
    forall k | 0 <= k < |out|
      ensures out[k] == Stored(out0, at, Zip(xor, a, b))[k]
    {
      assert at <= k < at + 16 ==> out[at + (k - at)] == xor(a[k - at], b[k - at]);
    }
  }

  method XorBytes<Y(!new)>(xor: (Y, Y) -> Y, out: array<Y>, at: nat, a: array<Y>, i: nat, b: array<Y>, j: nat)
    requires at + 16 <= out.Length && i + 16 <= a.Length && j + 16 <= b.Length
    requires (a == out ==> i == at) && b != out
    modifies out
    ensures out[..] == Stored(old(out[..]), at, Zip(xor, old(a[i..i + 16]), old(b[j..j + 16])))
  {
    ghost var out0, x, y := out[..], a[i..i + 16], b[j..j + 16];
    for n := 0 to 16
      invariant XorDone(xor, out[..], out0, at, x, y, n)
      invariant forall k :: n <= k < 16 ==> a[i + k] == x[k]
    {
      assert b[j + n] == y[n];
      out[at + n] := xor(a[i + n], b[j + n]);
    }
    XorAllDone(xor, out[..], out0, at, x, y);
  }

  lemma XorFour<Y>(xor: (Y, Y) -> Y, out: seq<Y>, out0: seq<Y>, at: nat, a: seq<Y>, b: seq<Y>, n: nat, v: Four<Y>, w: Four<Y>)
    requires at + 16 <= |out0| && |a| == |b| == 16 && n + 4 <= 16 && XorDone(xor, out, out0, at, a, b, n)
    requires v.Bytes() == a[n..n + 4] && w.Bytes() == b[n..n + 4]
    ensures XorDone(xor, Stored(out, at + n, v.Zip(xor, w).Bytes()), out0, at, a, b, n + 4)
  {
    var out' := Stored(out, at + n, v.Zip(xor, w).Bytes());
    forall k | 0 <= k < n + 4
      ensures out'[at + k] == xor(a[k], b[k])
    {
      assert n <= k ==> a[k] == a[n..n + 4][k - n] && b[k] == b[n..n + 4][k - n];
    }
  }

  lemma Sub<T>(s: seq<T>, i: nat, n: nat, x: seq<T>)
    requires i + 16 <= |s| && n + 4 <= 16 == |x| && s[i + n..i + 16] == x[n..]
    ensures s[i + n..i + n + 4] == x[n..n + 4] && s[i + n + 4..i + 16] == x[n + 4..]
  {
    assert s[i + n..i + 16][..4] == s[i + n..i + n + 4];
    assert s[i + n..i + 16][4..] == s[i + n + 4..i + 16];
  }

  method XorWord<Y(!new)>(ghost xor: (Y, Y) -> Y, xor32: (Four<Y>, Four<Y>) -> Four<Y>, out: array<Y>, at: nat, a: array<Y>, i: nat, b: array<Y>, j: nat,
                          ghost out0: seq<Y>, ghost x: seq<Y>, ghost y: seq<Y>, n: nat)
    requires at + 16 <= out.Length == |out0| && i + 16 <= a.Length && j + 16 <= b.Length && n + 4 <= 16
    requires (a == out ==> i == at) && b != out && WordwiseXor(xor, xor32)
    requires |x| == |y| == 16 && XorDone(xor, out[..], out0, at, x, y, n)
    requires a[..][i + n..i + 16] == x[n..] && b[..][j + n..j + 16] == y[n..]
    modifies out
    ensures XorDone(xor, out[..], out0, at, x, y, n + 4)
    ensures a[..][i + n + 4..i + 16] == x[n + 4..] && b[..][j + n + 4..j + 16] == y[n + 4..]
  {
    hide XorDone;
    ghost var o, a0 := out[..], a[..];
    Sub(a[..], i, n, x);
    Sub(b[..], j, n, y);
    var v := Load32(a, i + n);
    var w := Load32(b, j + n);
    XorFour(xor, out[..], out0, at, x, y, n, v, w);
    Store32(out, at + n, xor32(v, w));
    if a == out {
      assert a[..][i + n + 4..i + 16] == a0[i + n + 4..i + 16];
    }
  }

  method XorBlock<Y(!new)>(xor: (Y, Y) -> Y, xor32: (Four<Y>, Four<Y>) -> Four<Y>, aligned: bool,
                           out: array<Y>, at: nat, a: array<Y>, i: nat, b: array<Y>, j: nat)
    requires at + 16 <= out.Length && i + 16 <= a.Length && j + 16 <= b.Length
    requires (a == out ==> i == at) && b != out && WordwiseXor(xor, xor32)
    modifies out
    ensures out[..] == Stored(old(out[..]), at, Zip(xor, old(a[i..i + 16]), old(b[j..j + 16])))
  {
    if aligned {
      hide WordwiseXor;
      ghost var out0, x, y := out[..], a[i..i + 16], b[j..j + 16];
      assert a[..][i..i + 16] == x[0..] && b[..][j..j + 16] == y[0..];
      XorWord(xor, xor32, out, at, a, i, b, j, out0, x, y, 0);
      XorWord(xor, xor32, out, at, a, i, b, j, out0, x, y, 4);
      XorWord(xor, xor32, out, at, a, i, b, j, out0, x, y, 8);
      XorWord(xor, xor32, out, at, a, i, b, j, out0, x, y, 12);
      XorAllDone(xor, out[..], out0, at, x, y);
    } else {
      XorBytes(xor, out, at, a, i, b, j);
    }
  }
}
