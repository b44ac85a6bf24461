/**
  How far a call has come through its input and output buffers, which may be one and the same.
*/
module BufferProgress {
  import opened Blocks

  // Some of the input is done, and the rest is still in its buffer; the output buffer, which held
  // out0, begins with the output for the part that is done.
  ghost predicate Done<Y>(done: seq<Y>, input: seq<Y>, out0: seq<Y>, ibuf: seq<Y>, obuf: seq<Y>) {
    && |done| <= |input| <= |ibuf| && |input| <= |out0|
    && obuf == done + out0[|done|..]
    && ibuf[|done|..|input|] == input[|done|..]
  }

  lemma DoneStep<Y>(done: seq<Y>, input: seq<Y>, out0: seq<Y>, ibuf: seq<Y>, obuf: seq<Y>, b: seq<Y>)
    requires Done(done, input, out0, ibuf, obuf) && |done| + |b| <= |input|
    ensures Done(done + b, input, out0, ibuf, Stored(obuf, |done|, b))
    ensures ibuf == obuf ==> Done(done + b, input, out0, Stored(obuf, |done|, b), Stored(obuf, |done|, b))
  {
    var obuf' := Stored(obuf, |done|, b);
    var n := |done| + |b|;
    assert out0[|done|..][|b|..] == out0[n..];
    assert obuf' == done + b + out0[n..];
    assert ibuf[|done|..|input|][|b|..] == ibuf[n..|input|];
    assert input[|done|..][|b|..] == input[n..];
    if ibuf == obuf {
      assert obuf'[n..|input|] == obuf[n..|input|];
    }
  }

  lemma StoredTwice<Y>(out: seq<Y>, at: nat, a: seq<Y>, b: seq<Y>)
    requires |a| == |b| && at + |a| <= |out|
    ensures Stored(out, at, a)[at..at + |a|] == a && Stored(Stored(out, at, a), at, b) == Stored(out, at, b)
  {
  }

  lemma StoredAll<Y>(out: seq<Y>, b: seq<Y>)
    requires |out| == |b|
    ensures Stored(out, 0, b) == b && out[0..|out|] == out
  {
  }

  // Output stored behind output already stored, with its input still there
  lemma StoredMore<Y>(out0: seq<Y>, at: nat, a: seq<Y>, b: seq<Y>)
    requires at + |a| + |b| <= |out0|
    ensures Stored(Stored(out0, at, a), at + |a|, b) == Stored(out0, at, a + b)
    ensures forall k, l :: at + |a| <= k <= l <= |out0| ==> Stored(out0, at, a)[k..l] == out0[k..l]
  {
  }
}
