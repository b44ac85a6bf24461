/**
  aeskey.c: the encryption key schedules, and the decryption key schedules in both of the
  source's forms.  The plain form expands the key and then passes the inner words through
  inv_mcol; the shortcut form keeps mixed words and differences from the start.  Both are proved
  to store the same words, for either setting of AES_REV_DKS.

  The macros are written over any word type with an XOR, the substitutions ls_box(x, 3) and
  ls_box(x, 0), the round constants and a XOR-linear ff: what they rely on, and no more.
*/
module KeySchedule {
  import opened XorGroups

  datatype Keying<!W(!new)> =
    Keying(xor: (W, W) -> W, ls3: W -> W, ls0: W -> W, rc: nat -> W, ff: W -> W)
  {
    ghost predicate Valid() {
      XorGroup(xor) && Linear(xor, ff)
    }

    function G(i: nat, x: W): W {
      xor(ls3(x), rc(i))
    }
  }

  // FIPS 197 section 5.2: word i of the schedule expanded from the words of the key.
  function Expanded<W(!new)>(k: Keying<W>, key: seq<W>, i: nat): W
    requires |key| == 4 || |key| == 6 || |key| == 8
    decreases |key|, i
  {
    var nk := |key|;
    if i < nk then key[i]
    else if i % nk == 0 then k.xor(Expanded(k, key, i - nk), k.G(i / nk - 1, Expanded(k, key, i - 1)))
    else if nk == 8 && i % 8 == 4 then k.xor(Expanded(k, key, i - nk), k.ls0(Expanded(k, key, i - 1)))
    else k.xor(Expanded(k, key, i - nk), Expanded(k, key, i - 1))
  }

  // Word i of the decryption schedule: the inner round keys go through ff.
  function Decrypting<W(!new)>(k: Keying<W>, key: seq<W>, n: nat, i: nat): W
    requires |key| == 4 || |key| == 6 || |key| == 8
  {
    if 4 <= i < n then k.ff(Expanded(k, key, i)) else Expanded(k, key, i)
  }

  // The index map v(n, i): where word i of a schedule with last round key at n is stored.
  function V(n: nat, i: nat, rev: bool): (r: nat)
    requires n % 4 == 0 && i < n + 4
    ensures r < n + 4
  {
    if rev then n - i + 2 * (i % 4) else i
  }

  lemma VInverse(n: nat, i: nat, rev: bool)
    requires n % 4 == 0 && i < n + 4
    ensures V(n, V(n, i, rev), rev) == i
    ensures V(n, i, rev) % 4 == i % 4 && V(n, i, rev) / 4 == (if rev then n / 4 - i / 4 else i / 4)
  {
  }

  // The stored words in schedule order.
  function Logical<W>(ks: seq<W>, n: nat, rev: bool): (l: seq<W>)
    requires n % 4 == 0 && n + 4 <= |ks|
    ensures |l| == n + 4
  {
    seq(n + 4, i requires 0 <= i < n + 4 => ks[V(n, i, rev)])
  }

  // The array cx->ks seen through v: words is what it holds, in schedule order.
  class Layout<W> {
    const ks: array<W>
    const n: nat
    const rev: bool
    ghost var words: seq<W>
    ghost const initial: seq<W>

    ghost predicate Valid()
      reads this, ks
    {
      && n % 4 == 0 && n + 4 <= ks.Length == |initial| && |words| == n + 4
      && (forall i {:trigger V(n, i, rev)} :: 0 <= i < n + 4 ==> ks[V(n, i, rev)] == words[i])
      && (forall j {:trigger initial[j]} :: n + 4 <= j < ks.Length ==> ks[j] == initial[j])
    }

    constructor (ks: array<W>, n: nat, rev: bool)
      requires n % 4 == 0 && n + 4 <= ks.Length
      ensures Valid() && this.ks == ks && this.n == n && this.rev == rev && initial == ks[..]
    {
      this.ks, this.n, this.rev := ks, n, rev;
      words := Logical(ks[..], n, rev);
      initial := ks[..];
    }

    // k[v(n, i)]
    function Get(i: nat): (x: W)
      requires Valid() && i < n + 4
      reads this, ks
      ensures x == words[i]
    {
      ks[V(n, i, rev)]
    }

    // k[v(n, i)] = x
    method Put(i: nat, x: W)
      requires Valid() && i < n + 4
      modifies this, ks
      ensures Valid() && words == old(words)[i := x]
    {
      forall j | 0 <= j < n + 4 && j != i
        ensures V(n, j, rev) != V(n, i, rev)
      {
        VInverse(n, i, rev);
        VInverse(n, j, rev);
      }
      ks[V(n, i, rev)] := x;
      words := words[i := x];
    }

    lemma Result()
      requires Valid()
      ensures Logical(ks[..], n, rev) == words && ks[n + 4..] == initial[n + 4..]
    {
    }
  }

  // Cycle i of a key of nk words starts at word m of the schedule.
  predicate CycleStart(nk: nat, m: nat, i: nat) {
    (nk == 4 && m == 4 * i) || (nk == 6 && m == 6 * i) || (nk == 8 && m == 8 * i)
  }

  // One cycle of the expansion: the nk words after the cycle that starts at m.

  lemma ExpandedFirst<W(!new)>(k: Keying<W>, key: seq<W>, m: nat, i: nat)
    requires CycleStart(|key|, m, i)
    ensures Expanded(k, key, m + |key|) == k.xor(Expanded(k, key, m), k.G(i, Expanded(k, key, m + |key| - 1)))
  {
    assert (m + |key|) % |key| == 0 && (m + |key|) / |key| == i + 1;
  }

  lemma ExpandedNext<W(!new)>(k: Keying<W>, key: seq<W>, m: nat, i: nat, c: nat)
    requires CycleStart(|key|, m, i) && 0 < c < |key| && !(|key| == 8 && c == 4)
    ensures Expanded(k, key, m + |key| + c) == k.xor(Expanded(k, key, m + c), Expanded(k, key, m + |key| + c - 1))
  {
    assert (m + |key| + c) % |key| == c;
  }

  lemma ExpandedMiddle<W(!new)>(k: Keying<W>, key: seq<W>, m: nat, i: nat)
    requires |key| == 8 && m == 8 * i
    ensures Expanded(k, key, m + 12) == k.xor(Expanded(k, key, m + 4), k.ls0(Expanded(k, key, m + 11)))
  {
    assert (m + 12) % 8 == 4;
  }

  // The same cycle on mixed words: differences of mixed words are mixed differences.

  lemma MixedFirst<W(!new)>(k: Keying<W>, key: seq<W>, n: nat, m: nat, i: nat)
    requires k.Valid() && CycleStart(|key|, m, i) && 4 <= m && m + |key| < n
    ensures k.xor(k.ff(k.G(i, Expanded(k, key, m + |key| - 1))), Decrypting(k, key, n, m)) == Decrypting(k, key, n, m + |key|)
  {
    ExpandedFirst(k, key, m, i);
    MappedSum(k.xor, k.ff, Expanded(k, key, m), k.G(i, Expanded(k, key, m + |key| - 1)));
  }

  lemma MixedNext<W(!new)>(k: Keying<W>, key: seq<W>, n: nat, m: nat, i: nat, c: nat)
    requires k.Valid() && CycleStart(|key|, m, i) && 0 < c < |key| && !(|key| == 8 && c == 4)
    requires 4 <= m && m + |key| + c < n
    ensures k.xor(Decrypting(k, key, n, m + |key| + c - 1), Decrypting(k, key, n, m + c)) == Decrypting(k, key, n, m + |key| + c)
  {
    ExpandedNext(k, key, m, i, c);
    MappedSum(k.xor, k.ff, Expanded(k, key, m + c), Expanded(k, key, m + |key| + c - 1));
  }

  lemma MixedMiddle<W(!new)>(k: Keying<W>, key: seq<W>, n: nat, m: nat, i: nat)
    requires k.Valid() && |key| == 8 && m == 8 * i && 4 <= m && m + 12 < n
    ensures k.xor(k.ff(k.ls0(Expanded(k, key, m + 11))), Decrypting(k, key, n, m + 4)) == Decrypting(k, key, n, m + 12)
  {
    ExpandedMiddle(k, key, m, i);
    MappedSum(k.xor, k.ff, Expanded(k, key, m + 4), k.ls0(Expanded(k, key, m + 11)));
  }

  // l holds the first m words of the schedule whose inner words below d are mixed.  With d = 0
  // nothing is mixed: that is the encryption schedule.
  ghost predicate Holds<W(!new)>(k: Keying<W>, key: seq<W>, d: nat, l: seq<W>, m: nat)
    requires |key| == 4 || |key| == 6 || |key| == 8
  {
    m <= |l| && forall j :: 0 <= j < m ==> l[j] == Decrypting(k, key, d, j)
  }

  // ss is part way through a cycle: its first c words are from the cycle at m + nk, the others
  // still from the cycle at m.
  ghost predicate Window<W(!new)>(k: Keying<W>, key: seq<W>, ss: seq<W>, m: nat, c: nat)
    requires |key| == 4 || |key| == 6 || |key| == 8
  {
    |ss| >= |key| && c <= |key| &&
    forall j :: 0 <= j < |key| ==> ss[j] == Expanded(k, key, if j < c then m + |key| + j else m + j)
  }

  lemma WindowStep<W(!new)>(k: Keying<W>, key: seq<W>, ss: seq<W>, m: nat, c: nat, x: W)
    requires (|key| == 4 || |key| == 6 || |key| == 8) && Window(k, key, ss, m, c) && c < |key|
    requires x == Expanded(k, key, m + |key| + c)
    ensures Window(k, key, ss[c := x], m, c + 1)
  {
  }

  lemma WindowEnds<W(!new)>(k: Keying<W>, key: seq<W>, ss: seq<W>, m: nat)
    requires (|key| == 4 || |key| == 6 || |key| == 8) && Window(k, key, ss, m, 0)
    ensures |ss| >= |key| && ss[0] == Expanded(k, key, m) && ss[|key| - 1] == Expanded(k, key, m + |key| - 1)
  {
  }

  lemma HoldsStep<W(!new)>(k: Keying<W>, key: seq<W>, d: nat, l: seq<W>, m: nat, x: W)
    requires (|key| == 4 || |key| == 6 || |key| == 8) && Holds(k, key, d, l, m) && m < |l|
    requires x == Decrypting(k, key, d, m)
    ensures Holds(k, key, d, l[m := x], m + 1)
  {
  }

  // What the shortcut 128-bit schedule keeps in ss instead of the latest round key a, b, c, e: the
  // last words of the four latest round keys, as sums of the words of the latest one, rotated.
  ghost predicate Accumulators<W(!new)>(x: (W, W) -> W, ss: seq<W>, i: nat, a: W, b: W, c: W, e: W) {
    && |ss| == 4 && ss[(i + 3) % 4] == e && ss[(i + 2) % 4] == x(c, e) && ss[(i + 1) % 4] == x(b, e)
    && ss[i % 4] == x(x(a, b), x(c, e))
  }

  lemma AccumulatorsStep<W(!new)>(x: (W, W) -> W, ss: seq<W>, i: nat, a: W, b: W, c: W, e: W, g: W)
    requires XorGroup(x) && Accumulators(x, ss, i, a, b, c, e)
    ensures var a' := x(a, g); var b' := x(b, a'); var c' := x(c, b'); var e' := x(e, c');
            Accumulators(x, ss[i % 4 := x(ss[i % 4], g)], i + 1, a', b', c', e')
  {
    AccumulatorStep(x, a, b, c, e, g);
    assert (i + 1 + 3) % 4 == i % 4 && (i + 1 + 2) % 4 == (i + 3) % 4 && (i + 1 + 1) % 4 == (i + 2) % 4;
  }

  // The accumulators belong to the round key of cycle i.
  ghost predicate AccumulatorsOf<W(!new)>(k: Keying<W>, key: seq<W>, ss: seq<W>, i: nat)
    requires |key| == 4
  {
    Accumulators(k.xor, ss, i, Expanded(k, key, 4 * i), Expanded(k, key, 4 * i + 1), Expanded(k, key, 4 * i + 2),
                 Expanded(k, key, 4 * i + 3))
  }

  // The round key after the one in cycle i, in the shape AccumulatorStep takes it.
  lemma NextRoundKey<W(!new)>(k: Keying<W>, key: seq<W>, i: nat)
    requires |key| == 4
    ensures Expanded(k, key, 4 * i + 4) == k.xor(Expanded(k, key, 4 * i), k.G(i, Expanded(k, key, 4 * i + 3)))
    ensures Expanded(k, key, 4 * i + 5) == k.xor(Expanded(k, key, 4 * i + 1), Expanded(k, key, 4 * i + 4))
    ensures Expanded(k, key, 4 * i + 6) == k.xor(Expanded(k, key, 4 * i + 2), Expanded(k, key, 4 * i + 5))
    ensures Expanded(k, key, 4 * i + 7) == k.xor(Expanded(k, key, 4 * i + 3), Expanded(k, key, 4 * i + 6))
  {
    ExpandedFirst(k, key, 4 * i, i);
    ExpandedNext(k, key, 4 * i, i, 1);
    ExpandedNext(k, key, 4 * i, i, 2);
    ExpandedNext(k, key, 4 * i, i, 3);
  }

  lemma AccumulatorsOfNext<W(!new)>(k: Keying<W>, key: seq<W>, ss: seq<W>, i: nat)
    requires k.Valid() && |key| == 4 && AccumulatorsOf(k, key, ss, i)
    ensures AccumulatorsOf(k, key, ss[i % 4 := k.xor(ss[i % 4], k.G(i, ss[(i + 3) % 4]))], i + 1)
  {
    var a, b := Expanded(k, key, 4 * i), Expanded(k, key, 4 * i + 1);
    var c, e := Expanded(k, key, 4 * i + 2), Expanded(k, key, 4 * i + 3);
    NextRoundKey(k, key, i);
    AccumulatorsStep(k.xor, ss, i, a, b, c, e, k.G(i, e));
  }

  // The words of the next mixed round key, as kd4 makes them from the latest mixed one.
  lemma MixedRoundKey<W(!new)>(k: Keying<W>, key: seq<W>, i: nat)
    requires k.Valid() && |key| == 4 && 1 <= i <= 8
    ensures var t := k.xor(k.ff(k.G(i, Expanded(k, key, 4 * i + 3))), Decrypting(k, key, 40, 4 * i));
            && t == Decrypting(k, key, 40, 4 * i + 4)
            && k.xor(t, Decrypting(k, key, 40, 4 * i + 1)) == Decrypting(k, key, 40, 4 * i + 5)
            && k.xor(Decrypting(k, key, 40, 4 * i + 5), Decrypting(k, key, 40, 4 * i + 2)) == Decrypting(k, key, 40, 4 * i + 6)
            && k.xor(Decrypting(k, key, 40, 4 * i + 6), Decrypting(k, key, 40, 4 * i + 3)) == Decrypting(k, key, 40, 4 * i + 7)
  {
    MixedFirst(k, key, 40, 4 * i, i);
    MixedNext(k, key, 40, 4 * i, i, 1);
    MixedNext(k, key, 40, 4 * i, i, 2);
    MixedNext(k, key, 40, 4 * i, i, 3);
  }

  // The variables of a key schedule function: the schedule under its layout, the running words
  // ss[0..nk], and the scratch word ss[nk] of the decryption schedules in a field of its own.
  class Expander<W(!new)> {
    const k: Keying<W>
    const out: Layout<W>
    const nk: nat
    const ss: array<W>
    var scratch: W
    ghost const key: seq<W>
    ghost const d: nat

    ghost predicate Valid()
      reads out, out.ks
    {
      && out.Valid() && |key| == nk && (nk == 4 || nk == 6 || nk == 8)
      && ss.Length == nk && out.ks != ss && d <= out.n
    }

    // The schedule is filled up to word c of the cycle after the one at m, and ss has got there too.
    ghost predicate At(m: nat, i: nat, c: nat)
      reads out, out.ks, ss
    {
      Valid() && CycleStart(nk, m, i) && Window(k, key, ss[..], m, c) && Holds(k, key, d, out.words, m + nk + c)
    }

    // cx->ks[v(n, j)] = ss[j] = word_in(key, j); with mixed, words 4 and up of the key go
    // through ff on their way into the schedule.
    constructor (k: Keying<W>, out: Layout<W>, key: seq<W>, mixed: bool)
      requires out.Valid() && (|key| == 4 || |key| == 6 || |key| == 8) && |key| <= out.n
      modifies out, out.ks
      ensures At(0, 0, 0) && this.k == k && this.out == out && nk == |key| && this.key == key
      ensures d == (if mixed then out.n else 0) && fresh(ss)
    {
      this.k, this.out, this.nk, this.key := k, out, |key|, key;
      d := if mixed then out.n else 0;
      ss := new W[|key|](j requires 0 <= j < |key| => key[j]);
      scratch := key[0];
      new;
      for j := 0 to nk
        invariant Valid() && ss[..] == key && Holds(k, key, d, out.words, j)
      {
        out.Put(j, if mixed && 4 <= j then k.ff(key[j]) else key[j]);
      }
    }

    // The lines of the macros, for a cycle that starts at word m: each computes one word in ss and
    // stores it, or stores ff of it when mix.

    // ss[0] ^= ls_box(ss[nk - 1], 3) ^ t_use(r, c)[i]
    method First(m: nat, i: nat, mix: bool)
      requires At(m, i, 0) && m + nk < out.n + 4 && mix == (m + nk < d)
      modifies out, out.ks, ss
      ensures At(m, i, 1)
    {
      ExpandedFirst(k, key, m, i);
      var x := k.xor(ss[0], k.G(i, ss[nk - 1]));
      WindowStep(k, key, ss[..], m, 0, x);
      HoldsStep(k, key, d, out.words, m + nk, if mix then k.ff(x) else x);
      ss[0] := x;
      out.Put(m + nk, if mix then k.ff(x) else x);
    }

    // ss[c] ^= ss[c - 1]
    method Next(m: nat, i: nat, c: nat, mix: bool)
      requires 0 < c < nk && !(nk == 8 && c == 4)
      requires At(m, i, c) && m + nk + c < out.n + 4 && mix == (m + nk + c < d)
      modifies out, out.ks, ss
      ensures At(m, i, c + 1)
    {
      ExpandedNext(k, key, m, i, c);
      var x := k.xor(ss[c], ss[c - 1]);
      WindowStep(k, key, ss[..], m, c, x);
      HoldsStep(k, key, d, out.words, m + nk + c, if mix then k.ff(x) else x);
      ss[c] := x;
      out.Put(m + nk + c, if mix then k.ff(x) else x);
    }

    // ss[4] ^= ls_box(ss[3], 0)
    method Middle(m: nat, i: nat, mix: bool)
      requires nk == 8 && At(m, i, 4) && m + 12 < out.n + 4 && mix == (m + 12 < d)
      modifies out, out.ks, ss
      ensures At(m, i, 5)
    {
      ExpandedMiddle(k, key, m, i);
      var x := k.xor(ss[4], k.ls0(ss[3]));
      WindowStep(k, key, ss[..], m, 4, x);
      HoldsStep(k, key, d, out.words, m + 12, if mix then k.ff(x) else x);
      ss[4] := x;
      out.Put(m + 12, if mix then k.ff(x) else x);
    }

    // The cycles of the plain schedules: ke4 and k4e; kef6, k6ef, kdl6 (the first four words) and
    // ke6, k6e, kdf6; kef8, k8ef, kdl8 and ke8, k8e, kdf8.

    method Cycle4(m: nat, i: nat, mix: bool)
      requires At(m, i, 0) && m + nk + 4 <= out.n + 4 && mix == (m + nk < d) && (mix ==> m + nk + 4 <= d)
      modifies out, out.ks, ss
      ensures At(m, i, 4)
    {
      assert nk >= 4;
      hide *;
      First(m, i, mix);
      Next(m, i, 1, mix);
      Next(m, i, 2, mix);
      Next(m, i, 3, mix);
    }

    method Cycle6(m: nat, i: nat, mix: bool)
      requires nk == 6
      requires At(m, i, 0) && m + 12 <= out.n + 4 && mix == (m + 6 < d) && (mix ==> m + 12 <= d)
      modifies out, out.ks, ss
      ensures At(m, i, 6)
    {
      hide *;
      Cycle4(m, i, mix);
      Next(m, i, 4, mix);
      Next(m, i, 5, mix);
    }

    method Cycle8(m: nat, i: nat, mix: bool)
      requires nk == 8
      requires At(m, i, 0) && m + 16 <= out.n + 4 && mix == (m + 8 < d) && (mix ==> m + 16 <= d)
      modifies out, out.ks, ss
      ensures At(m, i, 8)
    {
      hide *;
      Cycle4(m, i, mix);
      Middle(m, i, mix);
      Next(m, i, 5, mix);
      Next(m, i, 6, mix);
      Next(m, i, 7, mix);
    }

    lemma CycleDone(m: nat, i: nat)
      requires At(m, i, nk)
      ensures At(m + nk, i + 1, 0)
    {
    }

    // The lines of kd6 and kd8: the new mixed word comes out of the mixed word nk places back and
    // the running difference in ss[nk], without another ff.

    ghost predicate Scratch(word: nat)
      requires Valid()
      reads this, out, out.ks, ss
    {
      word < out.n + 4 && scratch == out.words[word]
    }

    // ss[nk] = ls_box(ss[nk - 1], 3) ^ rc; ss[0] ^= ss[nk]; ss[nk] = ff(ss[nk]); k[..] = ss[nk] ^= k[m]
    method FirstDifference(m: nat, i: nat)
      requires k.Valid() && At(m, i, 0) && 4 <= m && m + nk < d
      modifies this, out, out.ks, ss
      ensures At(m, i, 1) && Scratch(m + nk)
    {
      FirstWords(m, i);
      hide *;
      var g := k.G(i, ss[nk - 1]);
      Store(m, i, 0, k.xor(ss[0], g), k.xor(k.ff(g), out.Get(m)));
    }

    lemma FirstWords(m: nat, i: nat)
      requires k.Valid() && At(m, i, 0) && 4 <= m && m + nk < d
      ensures 6 <= nk + 2 <= 10 && m < out.n + 4
      ensures var g := k.G(i, ss[nk - 1]);
              && k.xor(ss[0], g) == Expanded(k, key, m + nk)
              && k.xor(k.ff(g), out.words[m]) == Decrypting(k, key, d, m + nk)
    {
      hide Layout.Valid;
      ExpandedFirst(k, key, m, i);
      MixedFirst(k, key, d, m, i);
      WindowEnds(k, key, ss[..], m);
    }

    // ss[c] ^= ss[c - 1]; k[..] = ss[nk] ^= k[m + c]
    method NextDifference(m: nat, i: nat, c: nat)
      requires 0 < c < nk && !(nk == 8 && c == 4)
      requires k.Valid() && At(m, i, c) && 4 <= m && m + nk + c < d && Scratch(m + nk + c - 1)
      modifies this, out, out.ks, ss
      ensures At(m, i, c + 1) && Scratch(m + nk + c)
    {
      ExpandedNext(k, key, m, i, c);
      MixedNext(k, key, d, m, i, c);
      Store(m, i, c, k.xor(ss[c], ss[c - 1]), k.xor(scratch, out.Get(m + c)));
    }

    // ss[8] = ls_box(ss[3], 0); ss[4] ^= ss[8]; ss[8] = ff(ss[8]); k[..] = ss[8] ^= k[m + 4]
    method MiddleDifference(m: nat, i: nat)
      requires nk == 8 && k.Valid() && At(m, i, 4) && 4 <= m && m + 12 < d
      modifies this, out, out.ks, ss
      ensures At(m, i, 5) && Scratch(m + 12)
    {
      ExpandedMiddle(k, key, m, i);
      MixedMiddle(k, key, d, m, i);
      var g := k.ls0(ss[3]);
      Store(m, i, 4, k.xor(ss[4], g), k.xor(k.ff(g), out.Get(m + 4)));
    }

    // ss[c] = x and k[m + nk + c] = ss[nk] = t
    method Store(m: nat, i: nat, c: nat, x: W, t: W)
      requires At(m, i, c) && c < nk && m + nk + c < out.n + 4
      requires x == Expanded(k, key, m + nk + c) && t == Decrypting(k, key, d, m + nk + c)
      modifies this, out, out.ks, ss
      ensures At(m, i, c + 1) && Scratch(m + nk + c)
    {
      WindowStep(k, key, ss[..], m, c, x);
      HoldsStep(k, key, d, out.words, m + nk + c, t);
      ss[c] := x;
      scratch := t;
      out.Put(m + nk + c, t);
    }

    // kd6 and kd8

    method Difference4(m: nat, i: nat)
      requires nk >= 6 && k.Valid() && At(m, i, 0) && 4 <= m && m + nk + 4 <= d
      modifies this, out, out.ks, ss
      ensures At(m, i, 4) && Scratch(m + nk + 3)
    {
      hide *;
      FirstDifference(m, i);
      NextDifference(m, i, 1);
      NextDifference(m, i, 2);
      NextDifference(m, i, 3);
    }

    method Difference6(m: nat, i: nat)
      requires nk == 6 && k.Valid() && At(m, i, 0) && 4 <= m && m + 12 <= d
      modifies this, out, out.ks, ss
      ensures At(m, i, 6)
    {
      hide *;
      Difference4(m, i);
      NextDifference(m, i, 4);
      NextDifference(m, i, 5);
    }

    method Difference8(m: nat, i: nat)
      requires nk == 8 && k.Valid() && At(m, i, 0) && 4 <= m && m + 16 <= d
      modifies this, out, out.ks, ss
      ensures At(m, i, 8)
    {
      hide *;
      Difference4(m, i);
      MiddleDifference(m, i);
      NextDifference(m, i, 5);
      NextDifference(m, i, 6);
      NextDifference(m, i, 7);
    }

    // The shortcut 128-bit schedule.

    ghost predicate AccumulatorsAt(i: nat)
      reads out, out.ks, ss
    {
      Valid() && nk == 4 && d == out.n == 40 && AccumulatorsOf(k, key, ss[..], i) && Holds(k, key, d, out.words, 4 * i + 4)
    }

    // kdf4 sets up the accumulators ...
    method AccumulatorSums()
      requires k.Valid() && At(0, 0, 0) && nk == 4 && d == out.n == 40
      modifies ss
      ensures AccumulatorsAt(0)
    {
      AccumulatorStart(k.xor, ss[0], ss[1], ss[2], ss[3]);
      ss[0] := k.xor(k.xor(k.xor(ss[0], ss[2]), ss[1]), ss[3]);
      ss[1] := k.xor(ss[1], ss[3]);
      ss[2] := k.xor(ss[2], ss[3]);
    }

    // ss[4] = ls_box(ss[(i + 3) % 4], 3) ^ t_use(r, c)[i]; ss[i % 4] ^= ss[4]
    method Accumulate(i: nat)
      requires k.Valid() && AccumulatorsAt(i)
      modifies this, ss
      ensures scratch == k.G(i, Expanded(k, key, 4 * i + 3))
      ensures Valid() && AccumulatorsOf(k, key, ss[..], i + 1)
      ensures nk == 4 && d == out.n == 40 && Holds(k, key, d, out.words, 4 * i + 4)
    {
      AccumulatorsOfNext(k, key, ss[..], i);
      scratch := k.G(i, ss[(i + 3) % 4]);
      ss[i % 4] := k.xor(ss[i % 4], scratch);
    }

    // k[word] = ss[4] ^= k[src]
    method AppendSum(word: nat, src: nat)
      requires Valid() && Holds(k, key, d, out.words, word) && src < word < out.n + 4
      requires k.xor(scratch, Decrypting(k, key, d, src)) == Decrypting(k, key, d, word)
      modifies this, out, out.ks
      ensures Valid() && Holds(k, key, d, out.words, word + 1) && scratch == Decrypting(k, key, d, word)
    {
      var t := k.xor(scratch, out.Get(src));
      HoldsStep(k, key, d, out.words, word, t);
      scratch := t;
      out.Put(word, t);
    }

    // ss[4] ^= k[src]; k[word] = ff(ss[4])
    method AppendMixedSum(word: nat, src: nat)
      requires Valid() && Holds(k, key, d, out.words, word) && src < word < out.n + 4 && src < 4 <= word < d
      requires k.xor(scratch, Expanded(k, key, src)) == Expanded(k, key, word)
      modifies this, out, out.ks
      ensures Valid() && Holds(k, key, d, out.words, word + 1) && scratch == Expanded(k, key, word)
    {
      var t := k.xor(scratch, out.Get(src));
      HoldsStep(k, key, d, out.words, word, k.ff(t));
      scratch := t;
      out.Put(word, k.ff(t));
    }

    // k[word] = t
    method Append(word: nat, t: W)
      requires Valid() && Holds(k, key, d, out.words, word) && word < out.n + 4 && t == Decrypting(k, key, d, word)
      modifies out, out.ks
      ensures Valid() && Holds(k, key, d, out.words, word + 1)
    {
      HoldsStep(k, key, d, out.words, word, t);
      out.Put(word, t);
    }

    // kdf4: round key 1 from the key, its words through ff one by one.
    method Kdf4()
      requires k.Valid() && At(0, 0, 0) && nk == 4 && d == out.n == 40
      modifies this, out, out.ks, ss
      ensures AccumulatorsAt(1)
    {
      hide *;
      AccumulatorSums();
      Accumulate(0);
      FirstRoundKey();
      Accumulated(1);
    }

    method FirstRoundKey()
      requires k.Valid() && Valid() && nk == 4 && d == out.n == 40
      requires Holds(k, key, d, out.words, 4) && scratch == k.G(0, Expanded(k, key, 3))
      modifies this, out, out.ks
      ensures Valid() && Holds(k, key, d, out.words, 8)
    {
      NextRoundKey(k, key, 0);
      hide *;
      Comm(k.xor, scratch, Expanded(k, key, 0));
      AppendMixedSum(4, 0);
      Comm(k.xor, scratch, Expanded(k, key, 1));
      AppendMixedSum(5, 1);
      Comm(k.xor, scratch, Expanded(k, key, 2));
      AppendMixedSum(6, 2);
      Comm(k.xor, scratch, Expanded(k, key, 3));
      AppendMixedSum(7, 3);
    }

    // kd4: the next mixed round key from the latest mixed one.
    method Kd4(i: nat)
      requires k.Valid() && 1 <= i <= 8 && AccumulatorsAt(i)
      modifies this, out, out.ks, ss
      ensures AccumulatorsAt(i + 1)
    {
      hide *;
      Accumulate(i);
      MixedRoundKey(k, key, i);
      NextMixedRoundKey(4 * i);
      Accumulated(i + 1);
    }

    method NextMixedRoundKey(m: nat)
      requires Valid() && nk == 4 && d == out.n == 40 && m <= 32 && Holds(k, key, d, out.words, m + 4)
      requires k.xor(k.ff(scratch), Decrypting(k, key, d, m)) == Decrypting(k, key, d, m + 4)
      requires k.xor(Decrypting(k, key, d, m + 4), Decrypting(k, key, d, m + 1)) == Decrypting(k, key, d, m + 5)
      requires k.xor(Decrypting(k, key, d, m + 5), Decrypting(k, key, d, m + 2)) == Decrypting(k, key, d, m + 6)
      requires k.xor(Decrypting(k, key, d, m + 6), Decrypting(k, key, d, m + 3)) == Decrypting(k, key, d, m + 7)
      modifies this, out, out.ks
      ensures Valid() && Holds(k, key, d, out.words, m + 8)
    {
      hide *;
      scratch := k.ff(scratch);
      AppendSum(m + 4, m);
      AppendSum(m + 5, m + 1);
      AppendSum(m + 6, m + 2);
      AppendSum(m + 7, m + 3);
    }

    lemma Accumulated(i: nat)
      requires Valid() && nk == 4 && d == out.n == 40 && AccumulatorsOf(k, key, ss[..], i) && Holds(k, key, d, out.words, 4 * i + 4)
      ensures AccumulatorsAt(i)
    {
    }

    // kdl4 with i = 9: the last round key, unmixed, straight out of the accumulators.
    method Kdl4()
      requires k.Valid() && AccumulatorsAt(9)
      modifies this, out, out.ks, ss
      ensures Valid() && Holds(k, key, d, out.words, 44)
    {
      Accumulate(9);
      OutOfAccumulators(k.xor, Expanded(k, key, 40), Expanded(k, key, 41), Expanded(k, key, 42), Expanded(k, key, 43));
      ss[0] := k.xor(ss[0], ss[1]);
      Append(40, k.xor(k.xor(ss[0], ss[2]), ss[3]));
      Append(41, k.xor(ss[1], ss[3]));
      Append(42, ss[0]);
      Append(43, ss[1]);
    }

    lemma Filled(m: nat, i: nat, c: nat)
      requires At(m, i, c)
      ensures Valid() && Holds(k, key, d, out.words, m + nk + c)
    {
    }

    // The whole plain expansions ...

    method Plain128()
      requires nk == 4 && out.n == 40 && d == 0 && At(0, 0, 0)
      modifies out, out.ks, ss
      ensures Valid() && Holds(k, key, d, out.words, 44)
    {
      hide *;
      for i := 0 to 10
        invariant At(4 * i, i, 0)
      {
        Cycle4(4 * i, i, false);
        CycleDone(4 * i, i);
      }
      Filled(40, 10, 0);
    }

    method Plain192()
      requires nk == 6 && out.n == 48 && d == 0 && At(0, 0, 0)
      modifies out, out.ks, ss
      ensures Valid() && Holds(k, key, d, out.words, 52)
    {
      hide *;
      for i := 0 to 7
        invariant At(6 * i, i, 0)
      {
        Cycle6(6 * i, i, false);
        CycleDone(6 * i, i);
      }
      Cycle4(42, 7, false);
      Filled(42, 7, 4);
    }

    method Plain256()
      requires nk == 8 && out.n == 56 && d == 0 && At(0, 0, 0)
      modifies out, out.ks, ss
      ensures Valid() && Holds(k, key, d, out.words, 60)
    {
      hide *;
      for i := 0 to 6
        invariant At(8 * i, i, 0)
      {
        Cycle8(8 * i, i, false);
        CycleDone(8 * i, i);
      }
      Cycle4(48, 6, false);
      Filled(48, 6, 4);
    }

    // ... and the shortcut decryption schedules.

    method Shortcut128()
      requires k.Valid() && nk == 4 && d == out.n == 40 && At(0, 0, 0)
      modifies this, out, out.ks, ss
      ensures Valid() && Holds(k, key, d, out.words, 44)
    {
      hide *;
      Kdf4();
      for i := 1 to 9
        invariant AccumulatorsAt(i)
      {
        Kd4(i);
      }
      Kdl4();
    }

    method Shortcut192()
      requires k.Valid() && nk == 6 && d == out.n == 48 && At(0, 0, 0)
      modifies this, out, out.ks, ss
      ensures Valid() && Holds(k, key, d, out.words, 52)
    {
      hide *;
      Cycle6(0, 0, true);
      CycleDone(0, 0);
      for i := 1 to 7
        invariant At(6 * i, i, 0)
      {
        Difference6(6 * i, i);
        CycleDone(6 * i, i);
      }
      Cycle4(42, 7, false);
      Filled(42, 7, 4);
    }

    method Shortcut256()
      requires k.Valid() && nk == 8 && d == out.n == 56 && At(0, 0, 0)
      modifies this, out, out.ks, ss
      ensures Valid() && Holds(k, key, d, out.words, 60)
    {
      hide *;
      Cycle8(0, 0, true);
      CycleDone(0, 0);
      for i := 1 to 6
        invariant At(8 * i, i, 0)
      {
        Difference8(8 * i, i);
        CycleDone(8 * i, i);
      }
      Cycle4(48, 6, false);
      Filled(48, 6, 4);
    }
  }

  // The words a key schedule function leaves in cx->ks, in schedule order.
  ghost predicate Scheduled<W(!new)>(k: Keying<W>, key: seq<W>, n: nat, rev: bool, d: nat, ks: seq<W>)
    requires |key| == 4 || |key| == 6 || |key| == 8
  {
    n % 4 == 0 && n + 4 <= |ks| && Holds(k, key, d, Logical(ks, n, rev), n + 4)
  }

  // The plain expansions: aes_encrypt_key128/192/256 (with rev false), and the first half of the
  // plain decryption schedules.

  method Expand128<W(!new)>(k: Keying<W>, key: seq<W>, ks: array<W>, rev: bool)
    requires |key| == 4 && ks.Length >= 44
    modifies ks
    ensures Scheduled(k, key, 40, rev, 0, ks[..]) && ks[44..] == old(ks[44..])
  {
    var out := new Layout(ks, 40, rev);
    var e := new Expander(k, out, key, false);
    e.Plain128();
    out.Result();
  }

  method Expand192<W(!new)>(k: Keying<W>, key: seq<W>, ks: array<W>, rev: bool)
    requires |key| == 6 && ks.Length >= 52
    modifies ks
    ensures Scheduled(k, key, 48, rev, 0, ks[..]) && ks[52..] == old(ks[52..])
  {
    var out := new Layout(ks, 48, rev);
    var e := new Expander(k, out, key, false);
    e.Plain192();
    out.Result();
  }

  method Expand256<W(!new)>(k: Keying<W>, key: seq<W>, ks: array<W>, rev: bool)
    requires |key| == 8 && ks.Length >= 60
    modifies ks
    ensures Scheduled(k, key, 56, rev, 0, ks[..]) && ks[60..] == old(ks[60..])
  {
    var out := new Layout(ks, 56, rev);
    var e := new Expander(k, out, key, false);
    e.Plain256();
    out.Result();
  }

  // for (i = N_COLS; i < n; ++i) ks[i] = inv_mcol(ks[i]), the second half of the plain form.
  method MixInnerWords<W(!new)>(k: Keying<W>, key: seq<W>, n: nat, rev: bool, ks: array<W>)
    requires |key| == 4 || |key| == 6 || |key| == 8
    requires Scheduled(k, key, n, rev, 0, ks[..]) && n >= 4
    modifies ks
    ensures Scheduled(k, key, n, rev, n, ks[..]) && ks[n + 4..] == old(ks[n + 4..])
  {
    ghost var before := ks[..];
    for i := 4 to n
      invariant forall j :: 0 <= j < ks.Length ==> ks[j] == if 4 <= j < i then k.ff(before[j]) else before[j]
    {
      ks[i] := k.ff(ks[i]);
    }
    MixedLogical(k, key, n, rev, before, ks[..]);
  }

  // v keeps the inner round keys among themselves, so mixing them in place mixes the inner words.
  lemma MixedLogical<W(!new)>(k: Keying<W>, key: seq<W>, n: nat, rev: bool, before: seq<W>, after: seq<W>)
    requires |key| == 4 || |key| == 6 || |key| == 8
    requires Scheduled(k, key, n, rev, 0, before) && n >= 4 && |after| == |before|
    requires forall j :: 0 <= j < |before| ==> after[j] == if 4 <= j < n then k.ff(before[j]) else before[j]
    ensures Scheduled(k, key, n, rev, n, after)
  {
    forall j | 0 <= j < n + 4
      ensures Logical(after, n, rev)[j] == Decrypting(k, key, n, j)
    {
      VInverse(n, j, rev);
      assert Logical(before, n, rev)[j] == Expanded(k, key, j);
    }
  }

  // The shortcut decryption schedules, the form the shipped configuration selects.

  method DecryptKey128<W(!new)>(k: Keying<W>, key: seq<W>, ks: array<W>, rev: bool)
    requires k.Valid() && |key| == 4 && ks.Length >= 44
    modifies ks
    ensures Scheduled(k, key, 40, rev, 40, ks[..]) && ks[44..] == old(ks[44..])
  {
    var out := new Layout(ks, 40, rev);
    var e := new Expander(k, out, key, true);
    e.Shortcut128();
    out.Result();
  }

  method DecryptKey192<W(!new)>(k: Keying<W>, key: seq<W>, ks: array<W>, rev: bool)
    requires k.Valid() && |key| == 6 && ks.Length >= 52
    modifies ks
    ensures Scheduled(k, key, 48, rev, 48, ks[..]) && ks[52..] == old(ks[52..])
  {
    var out := new Layout(ks, 48, rev);
    var e := new Expander(k, out, key, true);
    e.Shortcut192();
    out.Result();
  }

  method DecryptKey256<W(!new)>(k: Keying<W>, key: seq<W>, ks: array<W>, rev: bool)
    requires k.Valid() && |key| == 8 && ks.Length >= 60
    modifies ks
    ensures Scheduled(k, key, 56, rev, 56, ks[..]) && ks[60..] == old(ks[60..])
  {
    var out := new Layout(ks, 56, rev);
    var e := new Expander(k, out, key, true);
    e.Shortcut256();
    out.Result();
  }

  // The plain form of the three functions.
  method PlainDecryptKey<W(!new)>(k: Keying<W>, key: seq<W>, ks: array<W>, rev: bool)
    requires (|key| == 4 && ks.Length >= 44) || (|key| == 6 && ks.Length >= 52) || (|key| == 8 && ks.Length >= 60)
    modifies ks
    ensures var n := 4 * |key| + 24;
            Scheduled(k, key, n, rev, n, ks[..]) && ks[n + 4..] == old(ks[n + 4..])
  {
    match |key| {
      case 4 => Expand128(k, key, ks, rev);
      case 6 => Expand192(k, key, ks, rev);
      case _ => Expand256(k, key, ks, rev);
    }
    MixInnerWords(k, key, 4 * |key| + 24, rev, ks);
  }

  // Any two arrays that hold the decryption schedule of a key in the same order agree on it: the
  // shortcut and the plain form store the same words.
  lemma ScheduleDetermined<W(!new)>(k: Keying<W>, key: seq<W>, n: nat, rev: bool, d: nat, ks: seq<W>, ks': seq<W>)
    requires |key| == 4 || |key| == 6 || |key| == 8
    requires Scheduled(k, key, n, rev, d, ks) && Scheduled(k, key, n, rev, d, ks')
    ensures ks[..n + 4] == ks'[..n + 4]
  {
    forall i | 0 <= i < n + 4
      ensures ks[i] == ks'[i]
    {
      VInverse(n, i, rev);
      var j := V(n, i, rev);
      assert Logical(ks, n, rev)[j] == Logical(ks', n, rev)[j];
    }
  }

  // Word i of the decryption schedule is word i of the encryption schedule, through ff when inner.
  lemma ScheduledWord<W(!new)>(k: Keying<W>, key: seq<W>, n: nat, rev: bool, ek: seq<W>, dk: seq<W>, i: nat)
    requires |key| == 4 || |key| == 6 || |key| == 8
    requires Scheduled(k, key, n, false, 0, ek) && Scheduled(k, key, n, rev, n, dk) && i < n + 4
    ensures dk[V(n, i, rev)] == if 4 <= i < n then k.ff(ek[i]) else ek[i]
  {
    assert Logical(ek, n, false)[i] == Decrypting(k, key, 0, i);
    assert Logical(dk, n, rev)[i] == Decrypting(k, key, n, i);
  }

  // Word c of the round key that decryption uses in round r: v puts it at round r with
  // AES_REV_DKS, and leaves it at round nr - r without.
  lemma ScheduledWords<W(!new)>(k: Keying<W>, key: seq<W>, nr: nat, rev: bool, ek: seq<W>, dk: seq<W>, r: nat, c: nat)
    requires |key| == 4 || |key| == 6 || |key| == 8
    requires Scheduled(k, key, 4 * nr, false, 0, ek) && Scheduled(k, key, 4 * nr, rev, 4 * nr, dk) && 1 <= nr && r <= nr && c < 4
    ensures var x := ek[4 * (nr - r) + c];
            dk[(if rev then 4 * r else 4 * (nr - r)) + c] == if 0 < r < nr then k.ff(x) else x
  {
    hide *;
    ScheduledWord(k, key, 4 * nr, rev, ek, dk, 4 * (nr - r) + c);
    VOfRound(nr, r, c, rev);
  }

  lemma VOfRound(nr: nat, r: nat, c: nat, rev: bool)
    requires r <= nr && c < 4
    ensures V(4 * nr, 4 * (nr - r) + c, rev) == (if rev then 4 * r else 4 * (nr - r)) + c
  {
  }
}
