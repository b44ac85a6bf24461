/**
  The byte arithmetic of AES: GF(2^8) with the polynomial x^8 + x^4 + x^3 + x + 1 (FIPS 197
  section 4), and the MixColumns transformations on one column of the state (sections 5.1.3
  and 5.3.3).  This is the reference that the packed-word macros are measured against.
*/
module GaloisField {

  // Addition in the field.  It is XOR; the proofs use it through the group laws below.
  function Add(a: bv8, b: bv8): bv8 {
    a ^ b
  }

  // Multiplication by x: shift, and reduce when the top bit falls out.
  function Xtime(b: bv8): bv8 {
    (b << 1) ^ ((b >> 7) * 0x1b)
  }

  // Multiplication of any two elements: the multiples of a selected by the bits of b.
  function Mul(a: bv8, b: bv8): bv8 {
    var a1 := Xtime(a);
    var a2 := Xtime(a1);
    var a3 := Xtime(a2);
    var a4 := Xtime(a3);
    var a5 := Xtime(a4);
    var a6 := Xtime(a5);
    var a7 := Xtime(a6);
    (a * (b & 1)) ^ (a1 * ((b >> 1) & 1)) ^ (a2 * ((b >> 2) & 1)) ^ (a3 * ((b >> 3) & 1)) ^
    (a4 * ((b >> 4) & 1)) ^ (a5 * ((b >> 5) & 1)) ^ (a6 * ((b >> 6) & 1)) ^ (a7 * ((b >> 7) & 1))
  }

  // The constants of MixColumns and its inverse, as sums of repeated xtime (section 4.2.1).
  function Mul2(a: bv8): bv8 { Xtime(a) }
  function Mul3(a: bv8): bv8 { Add(Mul2(a), a) }
  function Mul4(a: bv8): bv8 { Xtime(Xtime(a)) }
  function Mul8(a: bv8): bv8 { Xtime(Xtime(Xtime(a))) }
  function Mul9(a: bv8): bv8 { Add(Mul8(a), a) }
  function MulB(a: bv8): bv8 { Add(Add(Mul8(a), Mul2(a)), a) }
  function MulD(a: bv8): bv8 { Add(Add(Mul8(a), Mul4(a)), a) }
  function MulE(a: bv8): bv8 { Add(Add(Mul8(a), Mul4(a)), Mul2(a)) }

  datatype Column = Column(b0: bv8, b1: bv8, b2: bv8, b3: bv8) {
    function Plus(d: Column): Column {
      Column(Add(b0, d.b0), Add(b1, d.b1), Add(b2, d.b2), Add(b3, d.b3))
    }

    // Every byte one row down, the last one to the top.
    function Rotate(): Column {
      Column(b3, b0, b1, b2)
    }
  }

  function Sum4(a: bv8, b: bv8, c: bv8, d: bv8): bv8 {
    Add(Add(Add(a, b), c), d)
  }

  function MixColumn(c: Column): Column {
    Column(Sum4(Mul2(c.b0), Mul3(c.b1), c.b2, c.b3),
           Sum4(c.b0, Mul2(c.b1), Mul3(c.b2), c.b3),
           Sum4(c.b0, c.b1, Mul2(c.b2), Mul3(c.b3)),
           Sum4(Mul3(c.b0), c.b1, c.b2, Mul2(c.b3)))
  }

  function InvMixColumn(c: Column): Column {
    Column(Sum4(MulE(c.b0), MulB(c.b1), MulD(c.b2), Mul9(c.b3)),
           Sum4(Mul9(c.b0), MulE(c.b1), MulB(c.b2), MulD(c.b3)),
           Sum4(MulD(c.b0), Mul9(c.b1), MulE(c.b2), MulB(c.b3)),
           Sum4(MulB(c.b0), MulD(c.b1), Mul9(c.b2), MulE(c.b3)))
  }

  // Group laws

  lemma AddAssoc(a: bv8, b: bv8, c: bv8)
    ensures Add(Add(a, b), c) == Add(a, Add(b, c))
  {
  }

  lemma AddComm(a: bv8, b: bv8)
    ensures Add(a, b) == Add(b, a)
  {
  }

  lemma AddZero(a: bv8)
    ensures Add(a, 0) == a && Add(0, a) == a
  {
  }

  lemma AddTwice(a: bv8, b: bv8)
    ensures Add(Add(a, b), b) == a && Add(b, Add(b, a)) == a
    ensures Add(Add(b, a), b) == a && Add(b, Add(a, b)) == a
  {
  }

  lemma AddSwap(a: bv8, b: bv8, c: bv8, d: bv8)
    ensures Add(Add(a, b), Add(c, d)) == Add(Add(a, c), Add(b, d))
  {
    AddAssoc(a, b, Add(c, d));
    AddAssoc(b, c, d);
    AddComm(b, c);
    AddAssoc(c, b, d);
    AddAssoc(a, c, Add(b, d));
  }

  lemma Sum4Swap(a: bv8, b: bv8, c: bv8, d: bv8, e: bv8, f: bv8, g: bv8, h: bv8)
    ensures Sum4(Add(a, e), Add(b, f), Add(c, g), Add(d, h)) == Add(Sum4(a, b, c, d), Sum4(e, f, g, h))
  {
    AddSwap(a, e, b, f);
    AddSwap(Add(a, b), Add(e, f), c, g);
    AddSwap(Add(Add(a, b), c), Add(Add(e, f), g), d, h);
  }

  // Multiplication by a constant distributes over addition

  lemma XtimeDistributes(a: bv8, b: bv8)
    ensures Xtime(Add(a, b)) == Add(Xtime(a), Xtime(b))
  {
  }

  lemma PowersDistribute(a: bv8, b: bv8)
    ensures Mul2(Add(a, b)) == Add(Mul2(a), Mul2(b))
    ensures Mul4(Add(a, b)) == Add(Mul4(a), Mul4(b))
    ensures Mul8(Add(a, b)) == Add(Mul8(a), Mul8(b))
  {
    XtimeDistributes(a, b);
    XtimeDistributes(Xtime(a), Xtime(b));
    XtimeDistributes(Xtime(Xtime(a)), Xtime(Xtime(b)));
  }

  lemma InvConstantsDistribute(a: bv8, b: bv8)
    ensures Mul9(Add(a, b)) == Add(Mul9(a), Mul9(b))
    ensures MulB(Add(a, b)) == Add(MulB(a), MulB(b))
    ensures MulD(Add(a, b)) == Add(MulD(a), MulD(b))
    ensures MulE(Add(a, b)) == Add(MulE(a), MulE(b))
  {
    PowersDistribute(a, b);
    AddSwap(Mul8(a), Mul8(b), a, b);
    AddSwap(Mul8(a), Mul8(b), Mul2(a), Mul2(b));
    AddSwap(Add(Mul8(a), Mul2(a)), Add(Mul8(b), Mul2(b)), a, b);
    AddSwap(Mul8(a), Mul8(b), Mul4(a), Mul4(b));
    AddSwap(Add(Mul8(a), Mul4(a)), Add(Mul8(b), Mul4(b)), a, b);
    AddSwap(Add(Mul8(a), Mul4(a)), Add(Mul8(b), Mul4(b)), Mul2(a), Mul2(b));
  }

  lemma InvMixColumnDistributes(c: Column, d: Column)
    ensures InvMixColumn(c.Plus(d)) == InvMixColumn(c).Plus(InvMixColumn(d))
  {
    InvConstantsDistribute(c.b0, d.b0);
    InvConstantsDistribute(c.b1, d.b1);
    InvConstantsDistribute(c.b2, d.b2);
    InvConstantsDistribute(c.b3, d.b3);
    Sum4Swap(MulE(c.b0), MulB(c.b1), MulD(c.b2), Mul9(c.b3), MulE(d.b0), MulB(d.b1), MulD(d.b2), Mul9(d.b3));
    Sum4Swap(Mul9(c.b0), MulE(c.b1), MulB(c.b2), MulD(c.b3), Mul9(d.b0), MulE(d.b1), MulB(d.b2), MulD(d.b3));
    Sum4Swap(MulD(c.b0), Mul9(c.b1), MulE(c.b2), MulB(c.b3), MulD(d.b0), Mul9(d.b1), MulE(d.b2), MulB(d.b3));
    Sum4Swap(MulB(c.b0), MulD(c.b1), Mul9(c.b2), MulE(c.b3), MulB(d.b0), MulD(d.b1), Mul9(d.b2), MulE(d.b3));
  }

  // InvMixColumns undoes MixColumns.  A column is the sum of four single-byte columns; both maps
  // commute with rotation, so it is enough to look at a byte in the first row: there the product
  // of the two circulant matrices is 1 on the diagonal and 0 below it.

  // The four entries of that product, in terms of a0 = a, a1 = x a, .., a4 = x^4 a

  lemma Row0(a0: bv8, a1: bv8, a2: bv8, a3: bv8, a4: bv8, e2: bv8, b: bv8, d: bv8, nine2: bv8, nine: bv8)
    requires e2 == a4 ^ a3 ^ a2 && b == a3 ^ a1 ^ a0 && d == a3 ^ a2 ^ a0 && nine2 == a4 ^ a1 && nine == a3 ^ a0
    ensures Sum4(e2, b, d, Add(nine2, nine)) == a0
  {
  }

  lemma Row1(a0: bv8, a1: bv8, a2: bv8, a3: bv8, a4: bv8, nine2: bv8, e: bv8, b: bv8, d2: bv8, d: bv8)
    requires nine2 == a4 ^ a1 && e == a3 ^ a2 ^ a1 && b == a3 ^ a1 ^ a0 && d2 == a4 ^ a3 ^ a1 && d == a3 ^ a2 ^ a0
    ensures Sum4(nine2, e, b, Add(d2, d)) == 0
  {
  }

  lemma Row2(a0: bv8, a1: bv8, a2: bv8, a3: bv8, a4: bv8, d2: bv8, nine: bv8, e: bv8, b2: bv8, b: bv8)
    requires d2 == a4 ^ a3 ^ a1 && nine == a3 ^ a0 && e == a3 ^ a2 ^ a1 && b2 == a4 ^ a2 ^ a1 && b == a3 ^ a1 ^ a0
    ensures Sum4(d2, nine, e, Add(b2, b)) == 0
  {
  }

  lemma Row3(a0: bv8, a1: bv8, a2: bv8, a3: bv8, a4: bv8, b2: bv8, d: bv8, nine: bv8, e2: bv8, e: bv8)
    requires b2 == a4 ^ a2 ^ a1 && d == a3 ^ a2 ^ a0 && nine == a3 ^ a0 && e2 == a4 ^ a3 ^ a2 && e == a3 ^ a2 ^ a1
    ensures Sum4(b2, d, nine, Add(e2, e)) == 0
  {
  }

  lemma SumsAreXor(a: bv8, b: bv8, c: bv8)
    ensures Add(a, b) == a ^ b && Add(Add(a, b), c) == a ^ b ^ c
  {
  }

  lemma Products(a: bv8)
    ensures Sum4(MulE(Mul2(a)), MulB(a), MulD(a), Mul9(Mul3(a))) == a
    ensures Sum4(Mul9(Mul2(a)), MulE(a), MulB(a), MulD(Mul3(a))) == 0
    ensures Sum4(MulD(Mul2(a)), Mul9(a), MulE(a), MulB(Mul3(a))) == 0
    ensures Sum4(MulB(Mul2(a)), MulD(a), Mul9(a), MulE(Mul3(a))) == 0
  {
    hide Xtime, Add, Sum4;
    var t, a1, a2, a3 := Mul2(a), Xtime(a), Mul4(a), Mul8(a);
    var a4 := Xtime(a3);
    InvConstantsDistribute(t, a);
    SumsAreXor(a4, a1, 0);
    SumsAreXor(a4, a2, a1);
    SumsAreXor(a4, a3, a1);
    SumsAreXor(a4, a3, a2);
    SumsAreXor(a3, a, 0);
    SumsAreXor(a3, a1, a);
    SumsAreXor(a3, a2, a);
    SumsAreXor(a3, a2, a1);
    Row0(a, a1, a2, a3, a4, MulE(t), MulB(a), MulD(a), Mul9(t), Mul9(a));
    Row1(a, a1, a2, a3, a4, Mul9(t), MulE(a), MulB(a), MulD(t), MulD(a));
    Row2(a, a1, a2, a3, a4, MulD(t), Mul9(a), MulE(a), MulB(t), MulB(a));
    Row3(a, a1, a2, a3, a4, MulB(t), MulD(a), Mul9(a), MulE(t), MulE(a));
  }

  lemma FirstByteInverts(a: bv8)
    ensures InvMixColumn(MixColumn(Column(a, 0, 0, 0))) == Column(a, 0, 0, 0)
  {
    assert MixColumn(Column(a, 0, 0, 0)) == Column(Mul2(a), a, a, Mul3(a)) by {
      AddZero(a);
      AddZero(Mul2(a));
      AddZero(Mul3(a));
      AddZero(0);
      assert Mul2(0) == Mul3(0) == 0;
    }
    Products(a);
  }

  lemma Sum4Rotates(a: bv8, b: bv8, c: bv8, d: bv8)
    ensures Sum4(a, b, c, d) == Sum4(d, a, b, c)
  {
    AddComm(Add(Add(a, b), c), d);
    AddAssoc(d, Add(a, b), c);
    AddAssoc(d, a, b);
  }

  lemma MixColumnRotates(c: Column)
    ensures MixColumn(c.Rotate()) == MixColumn(c).Rotate()
  {
    Sum4Rotates(Mul2(c.b0), Mul3(c.b1), c.b2, c.b3);
    Sum4Rotates(c.b0, Mul2(c.b1), Mul3(c.b2), c.b3);
    Sum4Rotates(c.b0, c.b1, Mul2(c.b2), Mul3(c.b3));
    Sum4Rotates(Mul3(c.b0), c.b1, c.b2, Mul2(c.b3));
  }

  lemma InvMixColumnRotates(c: Column)
    ensures InvMixColumn(c.Rotate()) == InvMixColumn(c).Rotate()
  {
    Sum4Rotates(MulE(c.b0), MulB(c.b1), MulD(c.b2), Mul9(c.b3));
    Sum4Rotates(Mul9(c.b0), MulE(c.b1), MulB(c.b2), MulD(c.b3));
    Sum4Rotates(MulD(c.b0), Mul9(c.b1), MulE(c.b2), MulB(c.b3));
    Sum4Rotates(MulB(c.b0), MulD(c.b1), Mul9(c.b2), MulE(c.b3));
  }

  lemma SingleBytesInvert(a: bv8)
    ensures InvMixColumn(MixColumn(Column(a, 0, 0, 0))) == Column(a, 0, 0, 0)
    ensures InvMixColumn(MixColumn(Column(0, a, 0, 0))) == Column(0, a, 0, 0)
    ensures InvMixColumn(MixColumn(Column(0, 0, a, 0))) == Column(0, 0, a, 0)
    ensures InvMixColumn(MixColumn(Column(0, 0, 0, a))) == Column(0, 0, 0, a)
  {
    hide MixColumn, InvMixColumn;
    FirstByteInverts(a);
    RoundTripRotates(Column(a, 0, 0, 0));
    RoundTripRotates(Column(0, a, 0, 0));
    RoundTripRotates(Column(0, 0, a, 0));
  }

  lemma RoundTripRotates(c: Column)
    ensures InvMixColumn(MixColumn(c.Rotate())) == InvMixColumn(MixColumn(c)).Rotate()
    ensures MixColumn(InvMixColumn(c.Rotate())) == MixColumn(InvMixColumn(c)).Rotate()
  {
    hide MixColumn, InvMixColumn;
    MixColumnRotates(c);
    InvMixColumnRotates(c);
    InvMixColumnRotates(MixColumn(c));
    MixColumnRotates(InvMixColumn(c));
  }

  lemma MixColumnDistributes(c: Column, d: Column)
    ensures MixColumn(c.Plus(d)) == MixColumn(c).Plus(MixColumn(d))
  {
    Mul23Distribute(c.b0, d.b0);
    Mul23Distribute(c.b1, d.b1);
    Mul23Distribute(c.b2, d.b2);
    Mul23Distribute(c.b3, d.b3);
    Sum4Swap(Mul2(c.b0), Mul3(c.b1), c.b2, c.b3, Mul2(d.b0), Mul3(d.b1), d.b2, d.b3);
    Sum4Swap(c.b0, Mul2(c.b1), Mul3(c.b2), c.b3, d.b0, Mul2(d.b1), Mul3(d.b2), d.b3);
    Sum4Swap(c.b0, c.b1, Mul2(c.b2), Mul3(c.b3), d.b0, d.b1, Mul2(d.b2), Mul3(d.b3));
    Sum4Swap(Mul3(c.b0), c.b1, c.b2, Mul2(c.b3), Mul3(d.b0), d.b1, d.b2, Mul2(d.b3));
  }

  lemma Mul23Distribute(a: bv8, b: bv8)
    ensures Mul2(Add(a, b)) == Add(Mul2(a), Mul2(b))
    ensures Mul3(Add(a, b)) == Add(Mul3(a), Mul3(b))
  {
    PowersDistribute(a, b);
    AddSwap(Mul2(a), Mul2(b), a, b);
  }

  // InvMixColumns undoes MixColumns on every column.
  lemma MixColumnInverse(c: Column)
    ensures InvMixColumn(MixColumn(c)) == c
  {
    var s0, s1 := Column(c.b0, 0, 0, 0), Column(0, c.b1, 0, 0);
    var s2, s3 := Column(0, 0, c.b2, 0), Column(0, 0, 0, c.b3);
    hide MixColumn, InvMixColumn;
    SingleBytesInvert(c.b0);
    SingleBytesInvert(c.b1);
    SingleBytesInvert(c.b2);
    SingleBytesInvert(c.b3);
    RoundTripDistributes(s0, s1);
    RoundTripDistributes(s0.Plus(s1), s2);
    RoundTripDistributes(s0.Plus(s1).Plus(s2), s3);
    SumOfBytes(c);
  }

  lemma SumOfBytes(c: Column)
    ensures Column(c.b0, 0, 0, 0).Plus(Column(0, c.b1, 0, 0)).Plus(Column(0, 0, c.b2, 0)).Plus(Column(0, 0, 0, c.b3)) == c
  {
    AddZero(c.b0);
    AddZero(c.b1);
    AddZero(c.b2);
    AddZero(c.b3);
    AddZero(0);
  }

  lemma RoundTripDistributes(c: Column, d: Column)
    ensures InvMixColumn(MixColumn(c.Plus(d))) == InvMixColumn(MixColumn(c)).Plus(InvMixColumn(MixColumn(d)))
    ensures MixColumn(InvMixColumn(c.Plus(d))) == MixColumn(InvMixColumn(c)).Plus(MixColumn(InvMixColumn(d)))
  {
    hide MixColumn, InvMixColumn;
    MixColumnDistributes(c, d);
    InvMixColumnDistributes(c, d);
    InvMixColumnDistributes(MixColumn(c), MixColumn(d));
    MixColumnDistributes(InvMixColumn(c), InvMixColumn(d));
  }

  // MixColumns undoes InvMixColumns too: the products of the constants commute, so the entries are the
  // same.

  lemma DoublingCommutes(a: bv8)
    ensures Mul2(Mul9(a)) == Mul9(Mul2(a)) && Mul2(MulB(a)) == MulB(Mul2(a))
    ensures Mul2(MulD(a)) == MulD(Mul2(a)) && Mul2(MulE(a)) == MulE(Mul2(a))
  {
    var a1, a2, a3 := Mul2(a), Mul4(a), Mul8(a);
    hide Xtime, Add;
    XtimeDistributes(a3, a);
    XtimeDistributes(a3, a1);
    XtimeDistributes(Add(a3, a1), a);
    XtimeDistributes(a3, a2);
    XtimeDistributes(Add(a3, a2), a);
    XtimeDistributes(Add(a3, a2), a1);
  }

  lemma TriplingCommutes(a: bv8)
    ensures Mul3(Mul9(a)) == Mul9(Mul3(a)) && Mul3(MulB(a)) == MulB(Mul3(a))
    ensures Mul3(MulD(a)) == MulD(Mul3(a)) && Mul3(MulE(a)) == MulE(Mul3(a))
  {
    hide Xtime, Add, Mul9, MulB, MulD, MulE, Mul2;
    DoublingCommutes(a);
    InvConstantsDistribute(Mul2(a), a);
  }

  lemma Sum4Pairs(a: bv8, b: bv8, c: bv8, d: bv8)
    ensures Sum4(a, b, c, d) == Add(Add(a, b), Add(c, d)) == Add(Add(a, c), Add(b, d))
  {
    AddAssoc(Add(a, b), c, d);
    AddSwap(a, b, c, d);
  }

  lemma Sum4Permutes(a: bv8, b: bv8, c: bv8, d: bv8)
    ensures Sum4(a, b, c, d) == Sum4(a, d, c, b) == Sum4(b, a, d, c) == Sum4(c, b, a, d) == Sum4(d, c, b, a)
  {
    hide Add, Sum4;
    Sum4Pairs(a, b, c, d);
    Sum4Pairs(a, d, c, b);
    Sum4Pairs(b, a, d, c);
    Sum4Pairs(c, b, a, d);
    Sum4Pairs(d, c, b, a);
    AddComm(a, b);
    AddComm(a, c);
    AddComm(b, d);
    AddComm(c, d);
    AddComm(Add(a, b), Add(c, d));
  }

  lemma FirstByteInvertsBack(a: bv8)
    ensures MixColumn(InvMixColumn(Column(a, 0, 0, 0))) == Column(a, 0, 0, 0)
  {
    assert InvMixColumn(Column(a, 0, 0, 0)) == Column(MulE(a), Mul9(a), MulD(a), MulB(a)) by {
      AddZero(MulE(a));
      AddZero(Mul9(a));
      AddZero(MulD(a));
      AddZero(MulB(a));
      AddZero(0);
      assert MulE(0) == Mul9(0) == MulD(0) == MulB(0) == 0;
    }
    hide Add, Mul9, MulB, MulD, MulE, Mul2, Mul3, Sum4;
    Products(a);
    DoublingCommutes(a);
    TriplingCommutes(a);
    Sum4Permutes(MulE(Mul2(a)), MulB(a), MulD(a), Mul9(Mul3(a)));
    Sum4Permutes(Mul9(Mul2(a)), MulE(a), MulB(a), MulD(Mul3(a)));
    Sum4Permutes(MulD(Mul2(a)), Mul9(a), MulE(a), MulB(Mul3(a)));
    Sum4Permutes(MulB(Mul2(a)), MulD(a), Mul9(a), MulE(Mul3(a)));
  }

  lemma SingleBytesInvertBack(a: bv8)
    ensures MixColumn(InvMixColumn(Column(a, 0, 0, 0))) == Column(a, 0, 0, 0)
    ensures MixColumn(InvMixColumn(Column(0, a, 0, 0))) == Column(0, a, 0, 0)
    ensures MixColumn(InvMixColumn(Column(0, 0, a, 0))) == Column(0, 0, a, 0)
    ensures MixColumn(InvMixColumn(Column(0, 0, 0, a))) == Column(0, 0, 0, a)
  {
    hide MixColumn, InvMixColumn;
    FirstByteInvertsBack(a);
    RoundTripRotates(Column(a, 0, 0, 0));
    RoundTripRotates(Column(0, a, 0, 0));
    RoundTripRotates(Column(0, 0, a, 0));
  }

  lemma InvMixColumnInverse(c: Column)
    ensures MixColumn(InvMixColumn(c)) == c
  {
    var s0, s1 := Column(c.b0, 0, 0, 0), Column(0, c.b1, 0, 0);
    var s2, s3 := Column(0, 0, c.b2, 0), Column(0, 0, 0, c.b3);
    hide MixColumn, InvMixColumn;
    SingleBytesInvertBack(c.b0);
    SingleBytesInvertBack(c.b1);
    SingleBytesInvertBack(c.b2);
    SingleBytesInvertBack(c.b3);
    RoundTripDistributes(s0, s1);
    RoundTripDistributes(s0.Plus(s1), s2);
    RoundTripDistributes(s0.Plus(s1).Plus(s2), s3);
    SumOfBytes(c);
  }

  // The sums above are the field's own products with the constants of sections 5.1.3 and 5.3.3.

  lemma ForwardConstantsAreProducts(a: bv8)
    ensures Mul(a, 0x02) == Mul2(a) && Mul(a, 0x03) == Mul3(a)
  {
  }

  lemma InverseConstantsAreProducts(a: bv8)
    ensures Mul(a, 0x09) == Mul9(a) && Mul(a, 0x0b) == MulB(a)
    ensures Mul(a, 0x0d) == MulD(a) && Mul(a, 0x0e) == MulE(a)
  {
  }
}
