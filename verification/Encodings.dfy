/**
  Encoding.UTF8 and Encoding.Unicode of .NET on strings of UTF-16 code units, with their replacement of
  a surrogate that is not part of a pair by U+FFFD.
*/
module Encodings {
  import opened Tea

  // A UTF-16 code unit
  type Unit = bv16

  predicate High(u: Unit) {
    0xD800 <= u < 0xDC00
  }

  predicate Low(u: Unit) {
    0xDC00 <= u < 0xE000
  }

  predicate StartsWithPair(s: seq<Unit>) {
    |s| > 1 && High(s[0]) && Low(s[1])
  }

  const REPLACEMENT: Unit := 0xFFFD

  function RepairedUnit(u: Unit): Unit {
    if High(u) || Low(u) then REPLACEMENT else u
  }

  // The string that the encoders encode
  function Repaired(s: seq<Unit>): (r: seq<Unit>)
    ensures |r| == |s|
    decreases |s|
  {
    if s == [] then []
    else if StartsWithPair(s) then [s[0], s[1]] + Repaired(s[2..])
    else [RepairedUnit(s[0])] + Repaired(s[1..])
  }

  // Unit i is half of a pair.  A low surrogate never starts one, so pairs do not overlap.
  predicate InPair(s: seq<Unit>, i: nat)
    requires i < |s|
  {
    || (i + 1 < |s| && 0xD800 <= s[i] < 0xDC00 && 0xDC00 <= s[i + 1] < 0xE000)
    || (i > 0 && 0xD800 <= s[i - 1] < 0xDC00 && 0xDC00 <= s[i] < 0xE000)
  }

  // Exactly the surrogates that are not half of a pair are replaced.
  lemma {:induction false} RepairedAt(s: seq<Unit>, i: nat)
    requires i < |s|
    ensures Repaired(s)[i] == if 0xD800 <= s[i] < 0xE000 && !InPair(s, i) then 0xFFFD else s[i]
    decreases |s|
  {
    if StartsWithPair(s) {
      if i >= 2 {
        RepairedAt(s[2..], i - 2);
        InRest(s, 2, i);
      }
    } else if i >= 1 {
      RepairedAt(s[1..], i - 1);
      InRest(s, 1, i);
    }
  }

  lemma InRest(s: seq<Unit>, n: nat, i: nat)
    requires 0 < n <= i < |s| && !(High(s[n - 1]) && i == n && Low(s[n]))
    ensures InPair(s[n..], i - n) == InPair(s, i)
  {
    var t := s[n..];
    assert t[i - n] == s[i] && (i + 1 < |s| ==> t[i - n + 1] == s[i + 1]) && (i > n ==> t[i - n - 1] == s[i - 1]);
    hide High, Low;
    SurrogatesDiffer(s[n - 1], s[n]);
  }

  lemma SurrogatesDiffer(u: Unit, v: Unit)
    ensures High(u) && Low(v) <==> 0xD800 <= u < 0xDC00 && 0xDC00 <= v < 0xE000
  {
  }

  // So a string is encoded as it is exactly when it has none.
  lemma RepairedSame(s: seq<Unit>)
    ensures Repaired(s) == s <==> forall i :: 0 <= i < |s| && 0xD800 <= s[i] < 0xE000 ==> InPair(s, i)
  {
    hide Repaired, InPair;
    forall i | 0 <= i < |s|
      ensures Repaired(s)[i] == if 0xD800 <= s[i] < 0xE000 && !InPair(s, i) then 0xFFFD else s[i]
    {
      RepairedAt(s, i);
    }
    if i :| 0 <= i < |s| && 0xD800 <= s[i] < 0xE000 && !InPair(s, i) {
      assert Repaired(s)[i] != s[i];
    }
  }

  // Encoding.Unicode.GetBytes
  function Utf16(s: seq<Unit>): (b: seq<Byte>)
    ensures |b| == 2 * |s|
  {
    UnitBytes(Repaired(s))
  }

  function UnitBytes(s: seq<Unit>): (b: seq<Byte>)
    ensures |b| == 2 * |s|
  {
    if s == [] then [] else UnitBytes(s[..|s| - 1]) + [LowByte(s[|s| - 1]), HighByte(s[|s| - 1])]
  }

  function LowByte(u: Unit): Byte {
    (u & 0xFF) as bv8
  }

  function HighByte(u: Unit): Byte {
    (u >> 8) as bv8
  }

  function TwoBytes(low: Byte, high: Byte): Unit {
    (low as bv16) | ((high as bv16) << 8)
  }

  lemma TwoBytesOf(u: Unit)
    ensures TwoBytes(LowByte(u), HighByte(u)) == u
    ensures (LowByte(u) as bv16) == u & 0xFF && (HighByte(u) as bv16) == u >> 8
  {
  }

  lemma {:induction false} UnitBytesAt(s: seq<Unit>, i: nat)
    requires i < |s|
    ensures UnitBytes(s)[2 * i] == LowByte(s[i]) && UnitBytes(s)[2 * i + 1] == HighByte(s[i])
  {
    hide LowByte, HighByte;
    if i < |s| - 1 {
      UnitBytesAt(s[..|s| - 1], i);
    }
  }

  // One unit that is not a surrogate, and a pair, in UTF-8 (RFC 3629 section 3)

  function UnitInUtf8(u: Unit): (b: seq<Byte>)
    ensures 1 <= |b| <= 3
  {
    if u < 0x80 then [u as bv8]
    else if u < 0x800 then [0xC0 | ((u >> 6) as bv8), Tail(u)]
    else [0xE0 | ((u >> 12) as bv8), Tail(u >> 6), Tail(u)]
  }

  function Tail(u: Unit): Byte {
    0x80 | ((u & 0x3F) as bv8)
  }

  // The code point of a pair
  function CodePoint(h: Unit, l: Unit): bv32
    requires High(h) && Low(l)
  {
    0x1_0000 + (((h & 0x3FF) as bv32) << 10) + ((l & 0x3FF) as bv32)
  }

  function PairInUtf8(h: Unit, l: Unit): (b: seq<Byte>)
    requires High(h) && Low(l)
    ensures |b| == 4
  {
    var c := CodePoint(h, l);
    [0xF0 | ((c >> 18) & 7) as bv8, 0x80 | ((c >> 12) & 0x3F) as bv8, 0x80 | ((c >> 6) & 0x3F) as bv8, 0x80 | (c & 0x3F) as bv8]
  }

  // Encoding.UTF8.GetBytes
  function Utf8(s: seq<Unit>): (b: seq<Byte>)
    decreases |s|
  {
    if s == [] then []
    else if StartsWithPair(s) then PairInUtf8(s[0], s[1]) + Utf8(s[2..])
    else UnitInUtf8(RepairedUnit(s[0])) + Utf8(s[1..])
  }

  // A decoder, by the first byte of each sequence

  function Unit2(b0: Byte, b1: Byte): Unit {
    (((b0 & 0x1F) as bv16) << 6) | ((b1 & 0x3F) as bv16)
  }

  function Unit3(b0: Byte, b1: Byte, b2: Byte): Unit {
    (((b0 & 0xF) as bv16) << 12) | (((b1 & 0x3F) as bv16) << 6) | ((b2 & 0x3F) as bv16)
  }

  function Point4(b0: Byte, b1: Byte, b2: Byte, b3: Byte): bv32 {
    (((b0 & 7) as bv32) << 18) | (((b1 & 0x3F) as bv32) << 12) | (((b2 & 0x3F) as bv32) << 6) | ((b3 & 0x3F) as bv32)
  }

  function Pair4(c: bv32): (r: seq<Unit>)
    ensures |r| == 2
  {
    hide HighOf, LowOf, AboveBase;
    [HighOf(AboveBase(c)), LowOf(AboveBase(c))]
  }

  function AboveBase(c: bv32): bv32 {
    c - 0x1_0000
  }

  function HighOf(d: bv32): Unit {
    0xD800 | ((d >> 10) & 0x3FF) as bv16
  }

  function LowOf(d: bv32): Unit {
    0xDC00 | (d & 0x3FF) as bv16
  }

  function First(b: seq<Byte>): (r: (seq<Unit>, nat))
    requires b != []
    ensures 1 <= r.1 <= |b|
  {
    hide Unit2, Unit3, Pair4, Point4;
    if b[0] < 0xC0 || |b| < 2 then ([b[0] as bv16], 1)
    else if b[0] < 0xE0 || |b| < 3 then ([Unit2(b[0], b[1])], 2)
    else if b[0] < 0xF0 || |b| < 4 then ([Unit3(b[0], b[1], b[2])], 3)
    else (Pair4(Point4(b[0], b[1], b[2], b[3])), 4)
  }

  function Decoded(b: seq<Byte>): seq<Unit>
    decreases |b|
  {
    if b == [] then [] else First(b).0 + Decoded(b[First(b).1..])
  }

  lemma TwoByteForm(u: Unit, b0: Byte, b1: Byte)
    requires 0x80 <= u < 0x800 && b0 == 0xC0 | ((u >> 6) as bv8) && b1 == 0x80 | ((u & 0x3F) as bv8)
    ensures 0xC2 <= b0 < 0xE0 && 0x80 <= b1 < 0xC0 && Unit2(b0, b1) == u
  {
  }

  lemma ThreeByteForm(u: Unit, b0: Byte, b1: Byte, b2: Byte)
    requires 0x800 <= u && b0 == 0xE0 | ((u >> 12) as bv8) && b1 == 0x80 | (((u >> 6) & 0x3F) as bv8) && b2 == 0x80 | ((u & 0x3F) as bv8)
    ensures 0xE0 <= b0 < 0xF0 && 0x80 <= b1 < 0xC0 && 0x80 <= b2 < 0xC0 && Unit3(b0, b1, b2) == u
  {
  }

  // What the encoder writes, by bits: the shortest form of each unit, and the same of a pair
  lemma UnitForm(u: Unit)
    ensures var b := UnitInUtf8(u);
            && |b| == (if u < 0x80 then 1 else if u < 0x800 then 2 else 3)
            && (u < 0x80 ==> b[0] < 0x80 && b[0] as bv16 == u)
            && (0x80 <= u < 0x800 ==> 0xC2 <= b[0] < 0xE0 && 0x80 <= b[1] < 0xC0 && Unit2(b[0], b[1]) == u)
            && (0x800 <= u ==> 0xE0 <= b[0] < 0xF0 && 0x80 <= b[1] < 0xC0 && 0x80 <= b[2] < 0xC0 && Unit3(b[0], b[1], b[2]) == u)
  {
    hide Unit2, Unit3;
    var b := UnitInUtf8(u);
    if 0x80 <= u < 0x800 {
      TwoByteForm(u, b[0], b[1]);
    } else if 0x800 <= u {
      ThreeByteForm(u, b[0], b[1], b[2]);
    }
  }

  lemma FourByteForm(c: bv32, b0: Byte, b1: Byte, b2: Byte, b3: Byte)
    requires 0x1_0000 <= c <= 0x10_FFFF
    requires b0 == 0xF0 | ((c >> 18) & 7) as bv8 && b1 == 0x80 | ((c >> 12) & 0x3F) as bv8
    requires b2 == 0x80 | ((c >> 6) & 0x3F) as bv8 && b3 == 0x80 | (c & 0x3F) as bv8
    ensures 0xF0 <= b0 < 0xF8 && 0x80 <= b1 < 0xC0 && 0x80 <= b2 < 0xC0 && 0x80 <= b3 < 0xC0
    ensures Point4(b0, b1, b2, b3) == c
  {
  }

  lemma PointOfPair(h: Unit, l: Unit, c: bv32)
    requires 0xD800 <= h < 0xDC00 && 0xDC00 <= l < 0xE000 && c == 0x1_0000 + (((h & 0x3FF) as bv32) << 10) + ((l & 0x3FF) as bv32)
    ensures 0x1_0000 <= c <= 0x10_FFFF && HighOf(AboveBase(c)) == h && LowOf(AboveBase(c)) == l
  {
    hide HighOf, LowOf;
    PairOfPoint(h, l, c, AboveBase(c));
  }

  lemma PairOfPoint(h: Unit, l: Unit, c: bv32, d: bv32)
    requires 0xD800 <= h < 0xDC00 && 0xDC00 <= l < 0xE000 && c == 0x1_0000 + (((h & 0x3FF) as bv32) << 10) + ((l & 0x3FF) as bv32)
    requires d == c - 0x1_0000
    ensures 0x1_0000 <= c <= 0x10_FFFF && HighOf(d) == h && LowOf(d) == l
  {
  }

  lemma PointForm(h: Unit, l: Unit, c: bv32)
    requires High(h) && Low(l) && c == CodePoint(h, l)
    ensures 0x1_0000 <= c <= 0x10_FFFF && HighOf(AboveBase(c)) == h && LowOf(AboveBase(c)) == l
  {
    hide HighOf, LowOf, AboveBase;
    PointOfPair(h, l, c);
  }

  lemma PointOf(h: Unit, l: Unit)
    requires High(h) && Low(l)
    ensures var c := CodePoint(h, l); 0x1_0000 <= c <= 0x10_FFFF && Pair4(c) == [h, l]
  {
    hide HighOf, LowOf, AboveBase, CodePoint;
    PointForm(h, l, CodePoint(h, l));
  }

  lemma PairForm(h: Unit, l: Unit)
    requires High(h) && Low(l)
    ensures var b, c := PairInUtf8(h, l), CodePoint(h, l);
            && 0x1_0000 <= c <= 0x10_FFFF && Pair4(c) == [h, l]
            && 0xF0 <= b[0] < 0xF8 && 0x80 <= b[1] < 0xC0 && 0x80 <= b[2] < 0xC0 && 0x80 <= b[3] < 0xC0
            && Point4(b[0], b[1], b[2], b[3]) == c
  {
    hide Pair4, Point4, CodePoint;
    var b := PairInUtf8(h, l);
    PointOf(h, l);
    FourByteForm(CodePoint(h, l), b[0], b[1], b[2], b[3]);
  }

  lemma FirstOfUnit(u: Unit, rest: seq<Byte>)
    ensures First(UnitInUtf8(u) + rest) == ([u], |UnitInUtf8(u)|)
  {
    UnitForm(u);
    hide Unit2, Unit3, Pair4, Point4, UnitInUtf8;
  }

  lemma FirstOfPair(h: Unit, l: Unit, rest: seq<Byte>)
    requires High(h) && Low(l)
    ensures First(PairInUtf8(h, l) + rest) == ([h, l], 4)
  {
    PairForm(h, l);
    hide Unit2, Unit3, Pair4, Point4, PairInUtf8, CodePoint;
  }

  lemma Behind<T>(a: seq<T>, b: seq<T>)
    ensures (a + b)[|a|..] == b
  {
  }

  // Decoding gives back the string that was encoded.
  lemma {:induction false} DecodedUtf8(s: seq<Unit>)
    ensures Decoded(Utf8(s)) == Repaired(s)
    decreases |s|
  {
    hide First, UnitInUtf8, PairInUtf8, RepairedUnit, High, Low;
    if s == [] {
    } else if StartsWithPair(s) {
      DecodedUtf8(s[2..]);
      PairStarts(s);
      FirstOfPair(s[0], s[1], Utf8(s[2..]));
      Behind(PairInUtf8(s[0], s[1]), Utf8(s[2..]));
    } else {
      DecodedUtf8(s[1..]);
      FirstOfUnit(RepairedUnit(s[0]), Utf8(s[1..]));
      Behind(UnitInUtf8(RepairedUnit(s[0])), Utf8(s[1..]));
    }
  }

  lemma PairStarts(s: seq<Unit>)
    requires StartsWithPair(s)
    ensures High(s[0]) && Low(s[1]) && |PairInUtf8(s[0], s[1])| == 4
  {
  }

  // No byte or unit is 0 but for a unit that is.

  lemma NoNulInPair(h: Unit, l: Unit)
    requires High(h) && Low(l)
    ensures 0 !in PairInUtf8(h, l) && h != 0 && l != 0
  {
    PairForm(h, l);
    hide PairInUtf8, CodePoint, Point4, Pair4;
  }

  lemma NulInUnit(u: Unit)
    ensures 0 in UnitInUtf8(RepairedUnit(u)) <==> u == 0
    ensures RepairedUnit(u) == 0 <==> u == 0
  {
    UnitForm(RepairedUnit(u));
    hide UnitInUtf8, Unit2, Unit3;
  }

  lemma {:induction false} NulInUtf8(s: seq<Unit>)
    ensures 0 in Utf8(s) <==> 0 in s
    decreases |s|
  {
    hide UnitInUtf8, PairInUtf8, RepairedUnit, High, Low;
    if s == [] {
    } else if StartsWithPair(s) {
      NulInUtf8(s[2..]);
      NoNulInPair(s[0], s[1]);
      assert s == [s[0], s[1]] + s[2..];
    } else {
      NulInUtf8(s[1..]);
      NulInUnit(s[0]);
      assert s == [s[0]] + s[1..];
    }
  }

  lemma {:induction false} NulInRepaired(s: seq<Unit>)
    ensures 0 in Repaired(s) <==> 0 in s
    decreases |s|
  {
    hide UnitInUtf8, PairInUtf8, RepairedUnit, High, Low;
    if s == [] {
    } else if StartsWithPair(s) {
      NulInRepaired(s[2..]);
      NoNulInPair(s[0], s[1]);
      assert s == [s[0], s[1]] + s[2..];
    } else {
      NulInRepaired(s[1..]);
      NulInUnit(s[0]);
      assert s == [s[0]] + s[1..];
    }
  }
}
