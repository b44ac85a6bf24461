/**
  The word macros of aesopt.h and the table entries of aestab.c, for the little-endian byte
  order: a 32-bit word holds one column of the state, byte 0 in its low bits.  Each macro is
  related to the column operation of FIPS 197 that it computes four bytes at a time.
*/
module AesWords {
  import opened GaloisField
  import opened SubstitutionBox

  type Word = bv32

  // The C operator '^' on words.
  function Xor(a: Word, b: Word): Word {
    a ^ b
  }

  function Bval(x: Word, n: nat): bv8
    requires n < 4
  {
    if n == 0 then (x & 0xff) as bv8
    else if n == 1 then ((x >> 8) & 0xff) as bv8
    else if n == 2 then ((x >> 16) & 0xff) as bv8
    else ((x >> 24) & 0xff) as bv8
  }

  function Bytes2Word(b0: Word, b1: Word, b2: Word, b3: Word): Word {
    (b3 << 24) | (b2 << 16) | (b1 << 8) | b0
  }

  function Upr(x: Word, n: nat): Word
    requires 1 <= n < 4
  {
    if n == 1 then (x << 8) | (x >> 24)
    else if n == 2 then (x << 16) | (x >> 16)
    else (x << 24) | (x >> 8)
  }

  function GfMulx(x: Word): Word {
    ((x & 0x7f7f7f7f) << 1) ^ (((x & 0x80808080) >> 7) * 0x1b)
  }

  // The field multiples the tables are built from, in C integer arithmetic.
  function F2(x: Word): Word { (x << 1) ^ (((x >> 7) & 1) * 0x11b) }
  function F4(x: Word): Word { (x << 2) ^ (((x >> 6) & 1) * 0x11b) ^ (((x >> 6) & 2) * 0x11b) }
  function F8(x: Word): Word {
    (x << 3) ^ (((x >> 5) & 1) * 0x11b) ^ (((x >> 5) & 2) * 0x11b) ^ (((x >> 5) & 4) * 0x11b)
  }
  function F3(x: Word): Word { F2(x) ^ x }
  function F9(x: Word): Word { F8(x) ^ x }
  function FB(x: Word): Word { F8(x) ^ F2(x) ^ x }
  function FD(x: Word): Word { F8(x) ^ F4(x) ^ x }
  function FE(x: Word): Word { F8(x) ^ F4(x) ^ F2(x) }

  // Table entries: u for forward rounds, v for inverse rounds, w for the last rounds.
  function U0(p: Word): Word { Bytes2Word(F2(p), p, p, F3(p)) }
  function U1(p: Word): Word { Bytes2Word(F3(p), F2(p), p, p) }
  function U2(p: Word): Word { Bytes2Word(p, F3(p), F2(p), p) }
  function U3(p: Word): Word { Bytes2Word(p, p, F3(p), F2(p)) }
  function V0(p: Word): Word { Bytes2Word(FE(p), F9(p), FD(p), FB(p)) }
  function V1(p: Word): Word { Bytes2Word(FB(p), FE(p), F9(p), FD(p)) }
  function V2(p: Word): Word { Bytes2Word(FD(p), FB(p), FE(p), F9(p)) }
  function V3(p: Word): Word { Bytes2Word(F9(p), FD(p), FB(p), FE(p)) }
  function W0(p: Word): Word { Bytes2Word(p, 0, 0, 0) }
  function W1(p: Word): Word { Bytes2Word(0, p, 0, 0) }
  function W2(p: Word): Word { Bytes2Word(0, 0, p, 0) }
  function W3(p: Word): Word { Bytes2Word(0, 0, 0, p) }

  function Xor4(a: Word, b: Word, c: Word, d: Word): Word {
    Xor(Xor(Xor(a, b), c), d)
  }

  // four_tables over the u, v and w entries of four bytes.
  function UTables(p0: bv8, p1: bv8, p2: bv8, p3: bv8): Word {
    Xor4(U0(p0 as Word), U1(p1 as Word), U2(p2 as Word), U3(p3 as Word))
  }
  function VTables(p0: bv8, p1: bv8, p2: bv8, p3: bv8): Word {
    Xor4(V0(p0 as Word), V1(p1 as Word), V2(p2 as Word), V3(p3 as Word))
  }
  function WTables(p0: bv8, p1: bv8, p2: bv8, p3: bv8): Word {
    Xor4(W0(p0 as Word), W1(p1 as Word), W2(p2 as Word), W3(p3 as Word))
  }

  // inv_mcol through the four tables over mm_data, as the shipped configuration selects it ...
  function InvMcol(x: Word): Word {
    VTables(Bval(x, 0), Bval(x, 1), Bval(x, 2), Bval(x, 3))
  }

  // ... and the two column mixes in their gf_mulx form.
  function FwdMcolGf(x: Word): Word {
    var g2 := GfMulx(x);
    Xor4(g2, Upr(Xor(x, g2), 3), Upr(x, 2), Upr(x, 1))
  }

  function InvMcolGf(x: Word): Word {
    var g2 := GfMulx(x);
    var g4 := GfMulx(g2);
    var g9 := Xor(x, GfMulx(g4));
    var g4' := Xor(g4, g9);
    Xor4(Xor(Xor(x, g2), g4'), Upr(Xor(g2, g9), 3), Upr(g4', 2), Upr(g9, 1))
  }

  // Words and columns

  function ToColumn(x: Word): Column {
    Column(Bval(x, 0), Bval(x, 1), Bval(x, 2), Bval(x, 3))
  }

  function FromColumn(c: Column): Word {
    Bytes2Word(c.b0 as Word, c.b1 as Word, c.b2 as Word, c.b3 as Word)
  }

  lemma ToColumnInverse(x: Word)
    ensures FromColumn(ToColumn(x)) == x
  {
  }

  lemma FromColumnInverse(c: Column)
    ensures ToColumn(FromColumn(c)) == c
  {
  }

  lemma SameColumn(x: Word, y: Word)
    requires ToColumn(x) == ToColumn(y)
    ensures x == y
  {
    ToColumnInverse(x);
    ToColumnInverse(y);
  }

  lemma XorOfColumns(c: Column, d: Column)
    ensures Xor(FromColumn(c), FromColumn(d)) == FromColumn(c.Plus(d))
  {
  }

  lemma XorColumn(x: Word, y: Word)
    ensures ToColumn(Xor(x, y)) == ToColumn(x).Plus(ToColumn(y))
  {
    var c, d := ToColumn(x), ToColumn(y);
    ToColumnInverse(x);
    ToColumnInverse(y);
    XorOfColumns(c, d);
    FromColumnInverse(c.Plus(d));
  }

  lemma UprComposes(x: Word)
    ensures Upr(x, 2) == Upr(Upr(x, 1), 1) && Upr(x, 3) == Upr(Upr(x, 2), 1)
  {
  }

  lemma UprOfColumn(c: Column)
    ensures Upr(FromColumn(c), 1) == FromColumn(c.Rotate())
  {
  }

  lemma UprColumn(x: Word)
    ensures ToColumn(Upr(x, 1)) == ToColumn(x).Rotate()
    ensures ToColumn(Upr(x, 2)) == ToColumn(x).Rotate().Rotate()
    ensures ToColumn(Upr(x, 3)) == ToColumn(x).Rotate().Rotate().Rotate()
  {
    var c := ToColumn(x);
    ToColumnInverse(x);
    UprComposes(x);
    UprOfColumn(c);
    UprOfColumn(c.Rotate());
    UprOfColumn(c.Rotate().Rotate());
    FromColumnInverse(c.Rotate());
    FromColumnInverse(c.Rotate().Rotate());
    FromColumnInverse(c.Rotate().Rotate().Rotate());
  }

  lemma GfMulxColumn(x: Word)
    ensures ToColumn(GfMulx(x)) == Column(Mul2(Bval(x, 0)), Mul2(Bval(x, 1)), Mul2(Bval(x, 2)), Mul2(Bval(x, 3)))
  {
  }

  lemma FwdMultiples(p: bv8)
    ensures F2(p as Word) == Mul2(p) as Word && F3(p as Word) == Mul3(p) as Word
  {
  }

  lemma InvMultiples(p: bv8)
    ensures F9(p as Word) == Mul9(p) as Word && FB(p as Word) == MulB(p) as Word
    ensures FD(p as Word) == MulD(p) as Word && FE(p as Word) == MulE(p) as Word
  {
  }

  // The table entries, as columns

  lemma UColumn(p: bv8)
    ensures U0(p as Word) == FromColumn(Column(Mul2(p), p, p, Mul3(p)))
    ensures U1(p as Word) == FromColumn(Column(Mul3(p), Mul2(p), p, p))
    ensures U2(p as Word) == FromColumn(Column(p, Mul3(p), Mul2(p), p))
    ensures U3(p as Word) == FromColumn(Column(p, p, Mul3(p), Mul2(p)))
  {
    FwdMultiples(p);
  }

  lemma VColumn(p: bv8)
    ensures V0(p as Word) == FromColumn(Column(MulE(p), Mul9(p), MulD(p), MulB(p)))
    ensures V1(p as Word) == FromColumn(Column(MulB(p), MulE(p), Mul9(p), MulD(p)))
    ensures V2(p as Word) == FromColumn(Column(MulD(p), MulB(p), MulE(p), Mul9(p)))
    ensures V3(p as Word) == FromColumn(Column(Mul9(p), MulD(p), MulB(p), MulE(p)))
  {
    InvMultiples(p);
  }

  lemma WColumn(p: bv8)
    ensures W0(p as Word) == FromColumn(Column(p, 0, 0, 0))
    ensures W1(p as Word) == FromColumn(Column(0, p, 0, 0))
    ensures W2(p as Word) == FromColumn(Column(0, 0, p, 0))
    ensures W3(p as Word) == FromColumn(Column(0, 0, 0, p))
  {
  }

  lemma Xor4OfColumns(a: Column, b: Column, c: Column, d: Column)
    ensures Xor4(FromColumn(a), FromColumn(b), FromColumn(c), FromColumn(d))
         == FromColumn(a.Plus(b).Plus(c).Plus(d))
  {
    XorOfColumns(a, b);
    XorOfColumns(a.Plus(b), c);
    XorOfColumns(a.Plus(b).Plus(c), d);
  }

  // One lookup in each of the four tables is MixColumns of the four bytes ...
  lemma UTablesMixColumn(p0: bv8, p1: bv8, p2: bv8, p3: bv8)
    ensures UTables(p0, p1, p2, p3) == FromColumn(MixColumn(Column(p0, p1, p2, p3)))
  {
    UColumn(p0);
    UColumn(p1);
    UColumn(p2);
    UColumn(p3);
    Xor4OfColumns(Column(Mul2(p0), p0, p0, Mul3(p0)), Column(Mul3(p1), Mul2(p1), p1, p1),
                  Column(p2, Mul3(p2), Mul2(p2), p2), Column(p3, p3, Mul3(p3), Mul2(p3)));
  }

  // ... InvMixColumns of them ...
  lemma VTablesInvMixColumn(p0: bv8, p1: bv8, p2: bv8, p3: bv8)
    ensures VTables(p0, p1, p2, p3) == FromColumn(InvMixColumn(Column(p0, p1, p2, p3)))
  {
    VColumn(p0);
    VColumn(p1);
    VColumn(p2);
    VColumn(p3);
    Xor4OfColumns(Column(MulE(p0), Mul9(p0), MulD(p0), MulB(p0)), Column(MulB(p1), MulE(p1), Mul9(p1), MulD(p1)),
                  Column(MulD(p2), MulB(p2), MulE(p2), Mul9(p2)), Column(Mul9(p3), MulD(p3), MulB(p3), MulE(p3)));
  }

  // ... or just their concatenation.
  lemma WTablesColumn(p0: bv8, p1: bv8, p2: bv8, p3: bv8)
    ensures WTables(p0, p1, p2, p3) == FromColumn(Column(p0, p1, p2, p3))
  {
    WColumn(p0);
    WColumn(p1);
    WColumn(p2);
    WColumn(p3);
    Xor4OfColumns(Column(p0, 0, 0, 0), Column(0, p1, 0, 0), Column(0, 0, p2, 0), Column(0, 0, 0, p3));
    AddZero(p0);
    AddZero(p1);
    AddZero(p2);
    AddZero(p3);
    AddZero(0);
  }

  lemma Xor4Column(a: Word, b: Word, c: Word, d: Word)
    ensures ToColumn(Xor4(a, b, c, d)) == ToColumn(a).Plus(ToColumn(b)).Plus(ToColumn(c)).Plus(ToColumn(d))
  {
    XorColumn(a, b);
    XorColumn(Xor(a, b), c);
    XorColumn(Xor(Xor(a, b), c), d);
  }

  // inv_mcol

  lemma InvMcolColumn(x: Word)
    ensures ToColumn(InvMcol(x)) == InvMixColumn(ToColumn(x))
  {
    VTablesInvMixColumn(Bval(x, 0), Bval(x, 1), Bval(x, 2), Bval(x, 3));
    FromColumnInverse(InvMixColumn(ToColumn(x)));
  }

  // The column mix is XOR-linear: what lets the key schedule apply it to differences.
  lemma InvMcolDistributes(x: Word, y: Word)
    ensures InvMcol(Xor(x, y)) == Xor(InvMcol(x), InvMcol(y))
  {
    InvMcolColumn(x);
    InvMcolColumn(y);
    InvMcolColumn(Xor(x, y));
    XorColumn(x, y);
    XorColumn(InvMcol(x), InvMcol(y));
    InvMixColumnDistributes(ToColumn(x), ToColumn(y));
    SameColumn(InvMcol(Xor(x, y)), Xor(InvMcol(x), InvMcol(y)));
  }

  lemma FwdMcolGfColumn(x: Word)
    ensures ToColumn(FwdMcolGf(x)) == MixColumn(ToColumn(x))
  {
    var c := ToColumn(x);
    var g2 := GfMulx(x);
    GfMulxColumn(x);
    XorColumn(x, g2);
    UprColumn(Xor(x, g2));
    UprColumn(x);
    Xor4Column(g2, Upr(Xor(x, g2), 3), Upr(x, 2), Upr(x, 1));
    AddComm(c.b0, Mul2(c.b0));
    AddComm(c.b1, Mul2(c.b1));
    AddComm(c.b2, Mul2(c.b2));
    AddComm(c.b3, Mul2(c.b3));
    FwdMcolRow(c.b0, c.b1, c.b2, c.b3);
    FwdMcolRow(c.b1, c.b2, c.b3, c.b0);
    FwdMcolRow(c.b2, c.b3, c.b0, c.b1);
    FwdMcolRow(c.b3, c.b0, c.b1, c.b2);
  }

  lemma FwdMcolRow(a: bv8, b: bv8, c: bv8, d: bv8)
    ensures Sum4(Mul2(a), Mul3(b), c, d) == Sum4(d, Mul2(a), Mul3(b), c)
    ensures Sum4(Mul2(a), Mul3(b), c, d) == Sum4(c, d, Mul2(a), Mul3(b))
    ensures Sum4(Mul2(a), Mul3(b), c, d) == Sum4(Mul3(b), c, d, Mul2(a))
  {
    Sum4Rotates(Mul2(a), Mul3(b), c, d);
    Sum4Rotates(d, Mul2(a), Mul3(b), c);
    Sum4Rotates(c, d, Mul2(a), Mul3(b));
  }

  lemma Multiples(a: bv8)
    ensures Add(a, Mul8(a)) == Mul9(a)
    ensures Add(Mul2(a), Mul9(a)) == MulB(a)
    ensures Add(Mul4(a), Mul9(a)) == MulD(a)
    ensures Add(Add(a, Mul2(a)), MulD(a)) == MulE(a)
  {
  }

  lemma InvMcolGfColumn(x: Word)
    ensures ToColumn(InvMcolGf(x)) == InvMixColumn(ToColumn(x))
  {
    var c := ToColumn(x);
    var g2 := GfMulx(x);
    var g4 := GfMulx(g2);
    var g9 := Xor(x, GfMulx(g4));
    var g4' := Xor(g4, g9);
    GfMulxColumn(x);
    GfMulxColumn(g2);
    GfMulxColumn(g4);
    XorColumn(x, GfMulx(g4));
    XorColumn(g4, g9);
    XorColumn(x, g2);
    XorColumn(Xor(x, g2), g4');
    XorColumn(g2, g9);
    Multiples(c.b0);
    Multiples(c.b1);
    Multiples(c.b2);
    Multiples(c.b3);
    UprColumn(Xor(g2, g9));
    UprColumn(g4');
    UprColumn(g9);
    Xor4Column(Xor(Xor(x, g2), g4'), Upr(Xor(g2, g9), 3), Upr(g4', 2), Upr(g9, 1));
    InvMcolRow(c.b0, c.b1, c.b2, c.b3);
    InvMcolRow(c.b1, c.b2, c.b3, c.b0);
    InvMcolRow(c.b2, c.b3, c.b0, c.b1);
    InvMcolRow(c.b3, c.b0, c.b1, c.b2);
  }

  lemma InvMcolRow(a: bv8, b: bv8, c: bv8, d: bv8)
    ensures Sum4(MulE(a), MulB(b), MulD(c), Mul9(d)) == Sum4(Mul9(d), MulE(a), MulB(b), MulD(c))
    ensures Sum4(MulE(a), MulB(b), MulD(c), Mul9(d)) == Sum4(MulD(c), Mul9(d), MulE(a), MulB(b))
    ensures Sum4(MulE(a), MulB(b), MulD(c), Mul9(d)) == Sum4(MulB(b), MulD(c), Mul9(d), MulE(a))
  {
    Sum4Rotates(MulE(a), MulB(b), MulD(c), Mul9(d));
    Sum4Rotates(Mul9(d), MulE(a), MulB(b), MulD(c));
    Sum4Rotates(MulD(c), Mul9(d), MulE(a), MulB(b));
  }

  // The table form of inv_mcol and its gf_mulx form are the same function ...
  lemma InvMcolFormsAgree(x: Word)
    ensures InvMcol(x) == InvMcolGf(x)
  {
    InvMcolColumn(x);
    InvMcolGfColumn(x);
    SameColumn(InvMcol(x), InvMcolGf(x));
  }

  // ... and it undoes fwd_mcol on every word.
  lemma InvMcolUndoesFwdMcol(x: Word)
    ensures InvMcol(FwdMcolGf(x)) == x
  {
    FwdMcolGfColumn(x);
    InvMcolColumn(FwdMcolGf(x));
    MixColumnInverse(ToColumn(x));
    SameColumn(InvMcol(FwdMcolGf(x)), x);
  }
}
