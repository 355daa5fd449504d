/** For which numbers decoding inverts encoding. */
module LebProof {
  import opened Bytes
  import opened Words
  import opened Leb

  /** How many bytes a number takes. */
  lemma {:induction false} UnsignedLength(v: nat, k: nat, bound: nat)
    requires bound == Pow2(7 * k) && v < 128 * bound
    ensures |EncodeU(v)| <= k + 1
    decreases k
  {
    assert k == 0 ==> bound == 1;
    if v >= 128 {
      assert k > 0;
      SevenMore(k - 1);
      UnsignedLength(v / 128, k - 1, Pow2(7 * (k - 1)));
    }
  }

  lemma {:induction false} SignedLength(v: int, k: nat, bound: nat)
    requires bound == Pow2(7 * k) && -64 * bound <= v < 64 * bound
    ensures |EncodeS(v)| <= k + 1
    decreases k
  {
    assert k == 0 ==> bound == 1;
    if !(-64 <= v < 64) {
      assert k > 0;
      SevenMore(k - 1);
      SignedLength(v / 128, k - 1, Pow2(7 * (k - 1)));
    }
  }

  lemma NibbleWord(h: int, low: int)
    requires 0 <= low < 0x1000_0000
    ensures ToInt32(0x1000_0000 * h + low) == low + 0x1000_0000 * Nibble(h % 128)
  {
    var q, m := h / 16, h % 16;
    Nibbles(h);
    DivIs(0x1000_0000 * h + low, TWO_32, q, 0x1000_0000 * m + low);
    hide Nibble;
    assert ToInt32(0x1000_0000 * h + low) == if m < 8 then 0x1000_0000 * m + low else 0x1000_0000 * (m - 16) + low;
  }

  lemma Nibbles(h: int)
    ensures Nibble(h % 128) == if h % 16 < 8 then h % 16 else h % 16 - 16
  {
    var a, r := h / 128, h % 128;
    DivIs(h, 16, 8 * a + r / 16, r % 16);
  }

  /** The first five groups hold a 32-bit word. */
  lemma FirstFive(buf: seq<byte>, p: nat, bytes: seq<byte>, v: int)
    requires Written(buf, p, bytes) && Carries(bytes, v) && |bytes| >= 5
    ensures Gathered(buf, p, 5) == ToInt32(v)
  {
    hide *;
    FifthGroup(buf, p, bytes, v);
    Split(v, 4);
    SmallPowers();
    NibbleWord(High(v, 4), Low(v, 4));
  }

  /** With no more than four bytes, all groups are held. */
  lemma AllFour(buf: seq<byte>, p: nat, bytes: seq<byte>, v: int)
    requires Written(buf, p, bytes) && Carries(bytes, v) && |bytes| <= 4
    ensures v == Gathered(buf, p, |bytes|) + Pow2(7 * |bytes|) * High(v, |bytes|)
    ensures 0 <= Gathered(buf, p, |bytes|) < Pow2(7 * |bytes|)
  {
    hide *;
    FourExact(buf, p, bytes, v, |bytes|);
    Split(v, |bytes|);
  }

  lemma UnsignedRead(buf: seq<byte>, p: nat, v: nat)
    requires Written(buf, p, EncodeU(v))
    ensures p + |EncodeU(v)| <= |buf|
    ensures Uleb(buf, p) == Got(ToU64(Gathered(buf, p, |EncodeU(v)|)), p + |EncodeU(v)|)
  {
    hide Gathered, EncodeU, High, Carries;
    UnsignedCarries(v);
    assert EncodeU(v) != [] by { CarriesSome(EncodeU(v), v); }
    EndOf(buf, p, EncodeU(v), v, 0);
  }

  lemma CarriesSome(bytes: seq<byte>, v: int)
    requires Carries(bytes, v)
    ensures bytes != []
  {
  }

  lemma SmallUnsigned(buf: seq<byte>, p: nat, v: nat)
    requires Written(buf, p, EncodeU(v)) && v < TWO_31
    ensures Uleb(buf, p) == Got(v, p + |EncodeU(v)|)
  {
    hide Gathered, EncodeU, High, Carries, Uleb, Pow2;
    UnsignedRead(buf, p, v);
    UnsignedCarries(v);
    SmallPowers();
    UnsignedLength(v, 4, Pow2(28));
    if |EncodeU(v)| <= 4 {
      AllFour(buf, p, EncodeU(v), v);
    } else {
      FirstFive(buf, p, EncodeU(v), v);
    }
  }

  lemma MiddleUnsigned(buf: seq<byte>, p: nat, v: nat)
    requires Written(buf, p, EncodeU(v)) && TWO_31 <= v < TWO_64 - TWO_31
    ensures Uleb(buf, p).Got? && Uleb(buf, p).next == p + |EncodeU(v)| && Uleb(buf, p).value != v
  {
    hide Gathered, EncodeU, High, Carries, Uleb, Pow2;
    UnsignedRead(buf, p, v);
    GatheredRange(buf, p, |EncodeU(v)|);
  }

  // ----- ten bytes

  /** A number whose lowest k groups are all ones gets one more such group. */
  lemma FillStep(a: int, k: nat)
    ensures Or(Pow2(7 * k) * a + Pow2(7 * k) - 1, Pow2(7 * k) * 127)
         == Pow2(7 * (k + 1)) * (a / 128) + Pow2(7 * (k + 1)) - 1
  {
    hide Or, Pow2;
    OrShift(a, 127, Pow2(7 * k) - 1, 7 * k);
    SmallPowers();
    OrFills(a, 7);
    SevenMore(k);
    var p := Pow2(7 * k);
    assert p * (128 * (a / 128) + 127) == (128 * p) * (a / 128) + 127 * p;
  }

  /** Four groups of ones over a negative 28-bit number leave nothing but ones. */
  lemma AllOnes(x: int)
    requires -0x1000_0000 <= x < 0
    ensures Or(Or(Or(Or(x, 127), 127 * 0x80), 127 * 0x4000), 127 * 0x20_0000) == -1
  {
    hide Or, Pow2;
    SmallPowers();
    FillStep(x, 0);
    FillStep(x / 128, 1);
    FillStep(x / 128 / 128, 2);
    FillStep(x / 128 / 128 / 128, 3);
  }

  lemma OrEights(x: int, b: int, r: int)
    requires 0 <= r < 8
    ensures Or(8 * x + r, 8 * b) == 8 * Or(x, b) + r
  {
    SmallPowers();
    OrShift(x, b, r, 3);
  }

  /** What the sixth to the tenth byte of such a number do to it. */
  lemma FilledUp(w: int)
    requires -TWO_31 <= w < 0
    ensures Or(Or(Or(Or(Or(w, 127 * 0x8), 127 * 0x400), 127 * 0x2_0000), 127 * 0x100_0000), -TWO_31) == w % 8 - 8
  {
    hide Or;
    var x, r := w / 8, w % 8;
    AllOnes(x);
    OrEights(x, 127, r);
    var y := Or(x, 127);
    OrEights(y, 127 * 0x80, r);
    y := Or(y, 127 * 0x80);
    OrEights(y, 127 * 0x4000, r);
    y := Or(y, 127 * 0x4000);
    OrEights(y, 127 * 0x20_0000, r);
    OrEights(-1, -0x1000_0000, r);
    MinusOne(-0x1000_0000);
  }

  lemma MinusOne(b: int)
    ensures Or(-1, b) == -1
  {
  }

  lemma {:induction false} NoMoreGroups(v: int, n: nat, m: nat)
    requires High(v, n) == 0 && n <= m
    ensures High(v, m) == 0
    decreases m
  {
    if n < m {
      NoMoreGroups(v, n, m - 1);
      HighGrows(v, m - 1);
    }
  }

  lemma FourthGroupOf(v: nat)
    requires TWO_64 - TWO_31 <= v < TWO_64
    ensures 0x10_0000_0000 - 8 <= High(v, 4) < 0x10_0000_0000
  {
    hide High, Low, Pow2;
    Split(v, 4);
    SmallPowers();
  }

  lemma LargeHighs(v: nat)
    requires TWO_64 - TWO_31 <= v < TWO_64
    ensures High(v, 5) == 0x1FFF_FFFF && High(v, 6) == 0x3F_FFFF && High(v, 7) == 0x7FFF && High(v, 8) == 0xFF && High(v, 9) == 1
  {
    hide High;
    FourthGroupOf(v);
    HighGrows(v, 4);
    HighGrows(v, 5);
    HighGrows(v, 6);
    HighGrows(v, 7);
    HighGrows(v, 8);
  }

  lemma LargeGroups(v: nat)
    requires TWO_64 - TWO_31 <= v < TWO_64
    ensures |EncodeU(v)| == 10
    ensures High(v, 5) == 0x1FFF_FFFF && High(v, 6) == 0x3F_FFFF && High(v, 7) == 0x7FFF && High(v, 8) == 0xFF && High(v, 9) == 1
  {
    hide EncodeU, Pow2, High, Low, Carries;
    LargeHighs(v);
    UnsignedCarries(v);
    if |EncodeU(v)| <= 9 {
      NoMoreGroups(v, |EncodeU(v)|, 9);
    }
    BigPowers();
    UnsignedLength(v, 9, Pow2(63));
  }

  lemma BigPowers()
    ensures Pow2(63) == TWO_63 && Pow2(10) == 0x400 && Pow2(17) == 0x2_0000 && Pow2(24) == 0x100_0000
  {
    SmallPowers();
    assert Pow2(24) == 8 * Pow2(21) && Pow2(17) == 8 * Pow2(14) && Pow2(10) == 8 * Pow2(7);
    SevenMore(4);
    SevenMore(5);
    SevenMore(6);
    SevenMore(7);
    SevenMore(8);
  }

  lemma LatePieces(b: byte)
    ensures b % 128 == 127 ==>
      && Piece(b, 35) == 127 * 0x8 && Piece(b, 42) == 127 * 0x400
      && Piece(b, 49) == 127 * 0x2_0000 && Piece(b, 56) == 127 * 0x100_0000
    ensures b % 128 == 1 ==> Piece(b, 63) == -TWO_31
  {
    SmallPowers();
    BigPowers();
    hide Pow2;
  }

  lemma LargeUnsigned(buf: seq<byte>, p: nat, v: nat)
    requires Written(buf, p, EncodeU(v)) && TWO_64 - TWO_31 <= v < TWO_64
    ensures Uleb(buf, p) == Got(TWO_64 - 8 + v % 8, p + |EncodeU(v)|)
  {
    hide EncodeU, High, Low, Uleb, Pow2, Or, Piece, Gathered;
    UnsignedRead(buf, p, v);
    UnsignedCarries(v);
    LargeGroups(v);
    var bytes, w := EncodeU(v), v - TWO_64;
    FirstFive(buf, p, bytes, v);
    assert ToInt32(v) == w;
    FilledUp(w);
    GatherOne(buf, p, bytes, 5);
    GatherOne(buf, p, bytes, 6);
    GatherOne(buf, p, bytes, 7);
    GatherOne(buf, p, bytes, 8);
    GatherOne(buf, p, bytes, 9);
    LatePieces(bytes[5]);
    LatePieces(bytes[6]);
    LatePieces(bytes[7]);
    LatePieces(bytes[8]);
    LatePieces(bytes[9]);
    assert w % 8 == v % 8;
  }

  lemma GatherOne(buf: seq<byte>, p: nat, bytes: seq<byte>, k: nat)
    requires Written(buf, p, bytes) && k < |bytes|
    ensures Gathered(buf, p, k + 1) == Or(Gathered(buf, p, k), Piece(bytes[k], 7 * k))
  {
    assert buf[p + k] == bytes[k];
  }

  /** An unsigned number written anywhere in a buffer is read back exactly when it is below
      2^31 or among the last eight 64-bit words; the cursor is right in every case. */
  lemma UnsignedRoundTrip(buf: seq<byte>, p: nat, v: nat)
    requires Written(buf, p, EncodeU(v)) && v < TWO_64
    ensures Uleb(buf, p).Got? && Uleb(buf, p).next == p + |EncodeU(v)|
    ensures Uleb(buf, p).value == v <==> v < TWO_31 || v >= TWO_64 - 8
  {
    hide EncodeU, Uleb;
    if v < TWO_31 {
      SmallUnsigned(buf, p, v);
    } else if v < TWO_64 - TWO_31 {
      MiddleUnsigned(buf, p, v);
    } else {
      LargeUnsigned(buf, p, v);
    }
  }

  // ----- signed numbers

  lemma SignedRead(buf: seq<byte>, p: nat, v: int)
    requires Written(buf, p, EncodeS(v)) && EncodeS(v) != []
    ensures var n, g := |EncodeS(v)|, Gathered(buf, p, |EncodeS(v)|);
      Sleb(buf, p) == Got(ToU64(if v < 0 && 7 * n < 64 then Or(g, Fill(7 * n)) else g), p + n)
  {
    hide Gathered, EncodeS, High;
    SignedCarries(v);
    var bytes := EncodeS(v);
    EndOf(buf, p, bytes, v, 0);
    var n := |bytes|;
    assert buf[p + n - 1] == bytes[n - 1];
    HighGrows(v, n - 1);
    LastSign(bytes[n - 1], High(v, n - 1));
  }

  /** The last byte's sign bit is the sign of the number. */
  lemma LastSign(b: byte, h: int)
    requires -64 <= h < 64 && b % 128 == h % 128 && b < 128
    ensures SignBit(b) <==> h < 0
    ensures h / 128 == if h < 0 then -1 else 0
  {
  }

  lemma NonEmptyS(v: int)
    ensures EncodeS(v) != []
  {
  }

  lemma FillIs(n: nat)
    requires 1 <= n <= 4
    ensures Fill(7 * n) == -Pow2(7 * n)
  {
    SmallPowers();
    hide Pow2;
    if n == 1 {
    } else if n == 2 {
    } else if n == 3 {
    } else {
    }
  }

  lemma SmallSigned(buf: seq<byte>, p: nat, v: int)
    requires Written(buf, p, EncodeS(v)) && -0x800_0000 <= v < 0x800_0000
    ensures Sleb(buf, p) == Got(ToU64(v), p + |EncodeS(v)|)
  {
    hide EncodeS, Gathered, Carries, Sleb, Pow2, Or, Fill, High;
    NonEmptyS(v);
    SignedRead(buf, p, v);
    SignedCarries(v);
    SmallPowers();
    SignedLength(v, 3, Pow2(21));
    var n := |EncodeS(v)|;
    AllFour(buf, p, EncodeS(v), v);
    if v < 0 {
      FillIs(n);
      OrAdds(Gathered(buf, p, n), -1, 7 * n);
    }
  }

  lemma FiveSigned(buf: seq<byte>, p: nat, v: int)
    requires Written(buf, p, EncodeS(v)) && -TWO_31 <= v < TWO_31 && |EncodeS(v)| == 5
    ensures Sleb(buf, p).Got? && Sleb(buf, p).next == p + |EncodeS(v)|
    ensures v >= 0 ==> Sleb(buf, p).value == ToU64(v)
    ensures v < -8 ==> Sleb(buf, p).value != ToU64(v)
  {
    hide EncodeS, Gathered, Carries, Sleb, Or, Fill, High;
    SignedRead(buf, p, v);
    SignedCarries(v);
    FirstFive(buf, p, EncodeS(v), v);
    if v < 0 {
      FillFive();
      OrNegative(ToInt32(v), -8);
    }
  }

  lemma FillFive()
    ensures Fill(35) == -8
  {
    SmallPowers();
  }

  lemma FarSigned(buf: seq<byte>, p: nat, v: int)
    requires Written(buf, p, EncodeS(v)) && -TWO_63 <= v < TWO_63 && !(-TWO_31 <= v < TWO_31)
    ensures Sleb(buf, p).Got? && Sleb(buf, p).next == p + |EncodeS(v)|
    ensures Sleb(buf, p).value != ToU64(v)
  {
    hide EncodeS, Gathered, Carries, Sleb, Or, Pow2, Fill, High;
    NonEmptyS(v);
    SignedRead(buf, p, v);
    var n := |EncodeS(v)|;
    GatheredRange(buf, p, n);
    FillRange(7 * n);
    SmallPowers();
    OrInRange(Gathered(buf, p, n), Fill(7 * n), 31);
  }

  lemma FillRange(shift: nat)
    ensures -TWO_31 <= Fill(shift) < TWO_31
  {
  }

  /** A signed number written anywhere in a buffer is read back exactly when it lies between
      -2^27 and 2^31; the cursor is right in every case. */
  lemma SignedRoundTrip(buf: seq<byte>, p: nat, v: int)
    requires Written(buf, p, EncodeS(v)) && -TWO_63 <= v < TWO_63
    ensures Sleb(buf, p).Got? && Sleb(buf, p).next == p + |EncodeS(v)|
    ensures ToS64(Sleb(buf, p).value) == v <==> -0x800_0000 <= v < TWO_31
  {
    hide EncodeS, Sleb, Pow2, High;
    if -0x800_0000 <= v < 0x800_0000 {
      SmallSigned(buf, p, v);
    } else if -TWO_31 <= v < TWO_31 {
      SmallPowers();
      SignedLength(v, 4, Pow2(28));
      NeedsFive(v);
      FiveSigned(buf, p, v);
    } else {
      FarSigned(buf, p, v);
    }
    SameWord(Sleb(buf, p).value, v);
  }

  lemma SameWord(u: nat, v: int)
    requires u < TWO_64 && -TWO_63 <= v < TWO_63
    ensures ToS64(u) == v <==> u == ToU64(v)
  {
  }

  lemma NeedsFive(v: int)
    requires !(-0x800_0000 <= v < 0x800_0000)
    ensures |EncodeS(v)| >= 5
  {
    hide Pow2, Low, High, Carries, EncodeS;
    SignedCarries(v);
    NonEmptyS(v);
    var n := |EncodeS(v)|;
    if n <= 4 {
      Split(v, n - 1);
      SmallPowers();
    }
  }

  /** Some of the numbers in figures 22 and 23 of DWARF 3, as they are written there. */
  lemma PrintedExamples()
    ensures EncodeU(2) == [2] && EncodeU(127) == [127] && EncodeU(128) == [0x80, 1] && EncodeU(129) == [0x81, 1]
    ensures EncodeU(12857) == [57 + 0x80, 100]
    ensures EncodeS(2) == [2] && EncodeS(-2) == [0x7e] && EncodeS(127) == [127 + 0x80, 0] && EncodeS(-127) == [1 + 0x80, 0x7f]
    ensures EncodeS(128) == [0x80, 1] && EncodeS(-128) == [0x80, 0x7f] && EncodeS(129) == [1 + 0x80, 1] && EncodeS(-129) == [0x7f + 0x80, 0x7e]
  {
  }
}
