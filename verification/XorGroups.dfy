/**
  XOR, as the only thing the key schedule knows about it: an operation that is associative,
  commutative and undoes itself.
*/
module XorGroups {

  // The laws fire only for terms named by this function, so that they do not spread into the
  // proofs that merely carry them along.
  ghost predicate At<W(!new)>(a: W, b: W, c: W) {
    true
  }

  ghost predicate XorGroup<W(!new)>(x: (W, W) -> W) {
    && (forall a, b, c {:trigger At(a, b, c)} :: At(a, b, c) ==> x(x(a, b), c) == x(a, x(b, c)))
    && (forall a, b {:trigger At(a, b, b)} :: At(a, b, b) ==> x(a, b) == x(b, a) && x(x(a, b), b) == a)
  }

  // f is a XOR-linear map.
  ghost predicate Linear<W(!new)>(x: (W, W) -> W, f: W -> W) {
    forall a, b {:trigger At(a, b, a)} :: At(a, b, a) ==> f(x(a, b)) == x(f(a), f(b))
  }

  lemma Assoc<W(!new)>(x: (W, W) -> W, a: W, b: W, c: W)
    requires XorGroup(x)
    ensures x(x(a, b), c) == x(a, x(b, c))
  {
    assert At(a, b, c);
  }

  lemma Comm<W(!new)>(x: (W, W) -> W, a: W, b: W)
    requires XorGroup(x)
    ensures x(a, b) == x(b, a)
  {
    assert At(a, b, b);
  }

  lemma Cancel<W(!new)>(x: (W, W) -> W, a: W, b: W)
    requires XorGroup(x)
    ensures x(x(a, b), b) == a && x(b, x(a, b)) == a && x(b, x(b, a)) == a && x(x(b, a), b) == a
  {
    assert At(a, b, b);
    Comm(x, x(a, b), b);
    Comm(x, a, b);
  }

  lemma MappedSum<W(!new)>(x: (W, W) -> W, f: W -> W, a: W, b: W)
    requires XorGroup(x) && Linear(x, f)
    ensures x(f(b), f(a)) == f(x(a, b))
  {
    assert At(a, b, a);
    Comm(x, f(a), f(b));
  }

  // The four words a, b, c, d of a round key and the next round key a', b', c', d' made with g.
  // The accumulators of the last words of the four latest round keys carry over unchanged,
  // except that the oldest one takes in g.
  lemma AccumulatorStep<W(!new)>(x: (W, W) -> W, a: W, b: W, c: W, d: W, g: W)
    requires XorGroup(x)
    ensures var a' := x(a, g); var b' := x(b, a'); var c' := x(c, b'); var d' := x(d, c');
            && x(x(x(a, b), x(c, d)), g) == d'
            && d == x(c', d')
            && x(c, d) == x(b', d')
            && x(b, d) == x(x(a', b'), x(c', d'))
  {
    var a' := x(a, g);
    var b' := x(b, a');
    var c' := x(c, b');
    var d' := x(d, c');
    Cancel(x, d, c');
    Cancel(x, b, a');
    assert x(a', b') == b;
    // d' = d ^ (c ^ b'), so b' ^ d' = d ^ c
    assert d' == x(x(c, d), b') by {
      Assoc(x, d, c, b');
      Comm(x, c, d);
    }
    Cancel(x, x(c, d), b');
    // b' = (a ^ b) ^ g
    assert b' == x(x(a, b), g) by {
      Assoc(x, b, a, g);
      Comm(x, a, b);
    }
    Assoc(x, x(c, d), x(a, b), g);
    Comm(x, x(c, d), x(a, b));
  }

  // How the shortcut schedule first sums the four words of the key.
  lemma AccumulatorStart<W(!new)>(x: (W, W) -> W, a: W, b: W, c: W, d: W)
    requires XorGroup(x)
    ensures x(x(x(a, c), b), d) == x(x(a, b), x(c, d))
  {
    Assoc(x, a, c, b);
    Comm(x, c, b);
    Assoc(x, a, b, c);
    Assoc(x, x(a, b), c, d);
  }

  // A round key a, b, c, d out of its accumulators, as kdl4 takes it.
  lemma OutOfAccumulators<W(!new)>(x: (W, W) -> W, a: W, b: W, c: W, d: W)
    requires XorGroup(x)
    ensures x(x(c, d), d) == c
    ensures x(d, x(b, d)) == b
    ensures x(x(c, x(x(a, b), x(c, d))), x(b, d)) == a
  {
    Cancel(x, c, d);
    Cancel(x, b, d);
    Comm(x, d, x(b, d));
    assert x(c, x(x(a, b), x(c, d))) == x(x(a, b), d) by {
      Comm(x, x(a, b), x(c, d));
      Assoc(x, c, x(c, d), x(a, b));
      Cancel(x, d, c);
      Comm(x, c, d);
      Comm(x, d, x(a, b));
    }
    assert x(x(x(a, b), d), x(b, d)) == x(x(a, b), b) by {
      Assoc(x, x(a, b), d, x(b, d));
    }
    Cancel(x, a, b);
  }
}
