/** LEB128 numbers (section 7.6 of DWARF 3) as the decoder reads them: each group is shifted as
    a 32-bit int, on hardware that takes shift counts modulo 32, and then widened. */
module Leb {
  import opened Options
  import opened Bytes
  import opened Words

  /** The outcome of a read: outside the buffer, an abort, or a word and the cursor behind it. */
  datatype Decoded = Fault | Aborted | Got(value: nat, next: nat)

  // ----- decoding

  /** (byte & 0x7f) << shift, as an int. */
  function Piece(b: byte, shift: nat): int {
    ToInt32((b % 128) * Pow2(shift % 32))
  }

  /** ~0 << shift, as an int. */
  function Fill(shift: nat): int {
    ToInt32(-1 * Pow2(shift % 32))
  }

  /** The place just past the first byte, from p on, whose top bit is clear. */
  function LebEnd(buf: seq<byte>, p: nat): (r: Option<nat>)
    ensures r.Some? ==> p < r.value <= |buf|
    decreases |buf| - p
  {
    if p >= |buf| then None
    else if buf[p] < 128 then Some(p + 1)
    else LebEnd(buf, p + 1)
  }

  function Gathered(buf: seq<byte>, p: nat, n: nat): int
    requires p + n <= |buf|
  {
    if n == 0 then 0 else Or(Gathered(buf, p, n - 1), Piece(buf[p + n - 1], 7 * (n - 1)))
  }

  function Uleb(buf: seq<byte>, p: nat): (r: Decoded)
    ensures !r.Aborted? && (r.Got? ==> r.value < TWO_64 && p < r.next <= |buf|)
  {
    match LebEnd(buf, p)
    case None => Fault
    case Some(q) => Got(ToU64(Gathered(buf, p, q - p)), q)
  }

  predicate SignBit(b: byte) {
    b / 64 % 2 == 1
  }

  function Sleb(buf: seq<byte>, p: nat): (r: Decoded)
    ensures !r.Aborted? && (r.Got? ==> r.value < TWO_64 && p < r.next <= |buf|)
  {
    match LebEnd(buf, p)
    case None => Fault
    case Some(q) =>
      var r, shift := Gathered(buf, p, q - p), 7 * (q - p);
      Got(ToU64(if SignBit(buf[q - 1]) && shift < 64 then Or(r, Fill(shift)) else r), q)
  }

  method ReadULEB128(buf: seq<byte>, p: nat) returns (r: Decoded)
    ensures r == Uleb(buf, p)
  {
    var result, shift, q, more := 0, 0, p, true;
    while more
      invariant p <= q <= |buf| || (q == p && more)
      invariant more ==> LebEnd(buf, p) == LebEnd(buf, q)
      invariant !more ==> p < q && LebEnd(buf, p) == Some(q)
      invariant q > |buf| || (shift == 7 * (q - p) && result == Gathered(buf, p, q - p))
      decreases |buf| - q, more
    {
      if q >= |buf| {
        return Fault;
      }
      var b := buf[q];
      q := q + 1;
      result := Or(result, Piece(b, shift));
      shift := shift + 7;
      more := b >= 128;
    }
    r := Got(ToU64(result), q);
  }

  method ReadSLEB128(buf: seq<byte>, p: nat) returns (r: Decoded)
    ensures r == Sleb(buf, p)
  {
    var result, shift, q, more := 0, 0, p, true;
    var b: byte := 0;
    while more
      invariant p <= q <= |buf| || (q == p && more)
      invariant more ==> LebEnd(buf, p) == LebEnd(buf, q)
      invariant !more ==> p < q && LebEnd(buf, p) == Some(q) && b == buf[q - 1]
      invariant q > |buf| || (shift == 7 * (q - p) && result == Gathered(buf, p, q - p))
      decreases |buf| - q, more
    {
      if q >= |buf| {
        return Fault;
      }
      b := buf[q];
      q := q + 1;
      result := Or(result, Piece(b, shift));
      shift := shift + 7;
      more := b >= 128;
    }
    if SignBit(b) && shift < 64 {
      result := Or(result, Fill(shift));
    }
    r := Got(ToU64(result), q);
  }

  // ----- encoding

  function EncodeU(v: nat): seq<byte> {
    if v < 128 then [v] else [128 + v % 128] + EncodeU(v / 128)
  }

  function EncodeS(v: int): seq<byte>
    decreases if v >= 0 then v else -v
  {
    if -64 <= v < 64 then [v % 128] else [128 + v % 128] + EncodeS(v / 128)
  }

  /** The bytes are in the buffer from p on. */
  predicate Written(buf: seq<byte>, p: nat, bytes: seq<byte>) {
    p + |bytes| <= |buf| && buf[p..p + |bytes|] == bytes
  }

  /** The number without its lowest k groups of seven bits, and those groups alone. */
  function High(v: int, k: nat): int
    decreases k
  {
    if k == 0 then v else High(v / 128, k - 1)
  }

  function Low(v: int, k: nat): int
    decreases k
  {
    if k == 0 then 0 else v % 128 + 128 * Low(v / 128, k - 1)
  }

  lemma {:induction false} Split(v: int, k: nat)
    ensures v == Low(v, k) + Pow2(7 * k) * High(v, k) && 0 <= Low(v, k) < Pow2(7 * k)
    decreases k
  {
    if k > 0 {
      Split(v / 128, k - 1);
      SevenMore(k - 1);
      var x, h := Pow2(7 * (k - 1)), High(v / 128, k - 1);
      assert (128 * x) * h == 128 * (x * h);
    } else {
      assert Pow2(0) == 1;
    }
  }

  lemma SevenMore(k: nat)
    ensures Pow2(7 * (k + 1)) == 128 * Pow2(7 * k)
  {
    var n := 7 * k;
    assert Pow2(n + 2) == 4 * Pow2(n);
    assert Pow2(n + 4) == 4 * Pow2(n + 2);
    assert Pow2(n + 6) == 4 * Pow2(n + 4);
    assert Pow2(n + 7) == 2 * Pow2(n + 6);
  }

  lemma {:induction false} LowGrows(v: int, k: nat)
    ensures Low(v, k + 1) == Low(v, k) + Pow2(7 * k) * (High(v, k) % 128)
    decreases k
  {
    if k > 0 {
      LowGrows(v / 128, k - 1);
      SevenMore(k - 1);
      var x, h := Pow2(7 * (k - 1)), High(v, k) % 128;
      assert (128 * x) * h == 128 * (x * h);
    } else {
      assert Pow2(0) == 1;
    }
  }

  lemma {:induction false} HighGrows(v: int, k: nat)
    ensures High(v, k + 1) == High(v, k) / 128
    decreases k
  {
    if k > 0 {
      HighGrows(v / 128, k - 1);
    }
  }

  /** The bytes carry the groups of v, low ones first, and only the last has its top bit clear. */
  ghost predicate Carries(bytes: seq<byte>, v: int) {
    && bytes != []
    && (forall k :: 0 <= k < |bytes| ==> bytes[k] % 128 == High(v, k) % 128)
    && (forall k :: 0 <= k < |bytes| ==> (bytes[k] < 128 <==> k == |bytes| - 1))
  }

  lemma CarriesMore(bytes: seq<byte>, v: int)
    requires Carries(bytes, v / 128)
    ensures Carries([128 + v % 128] + bytes, v)
  {
    var all := [128 + v % 128] + bytes;
    forall k | 0 <= k < |all| ensures all[k] % 128 == High(v, k) % 128 && (all[k] < 128 <==> k == |all| - 1) {
      if k > 0 {
        assert all[k] == bytes[k - 1];
      }
    }
  }

  lemma {:induction false} UnsignedCarries(v: nat)
    ensures Carries(EncodeU(v), v) && High(v, |EncodeU(v)|) == 0
  {
    if v >= 128 {
      UnsignedCarries(v / 128);
      CarriesMore(EncodeU(v / 128), v);
    } else {
      assert High(v, 1) == v / 128;
    }
  }

  lemma {:induction false} SignedCarries(v: int)
    ensures Carries(EncodeS(v), v)
    ensures var n := |EncodeS(v)|; -64 <= High(v, n - 1) < 64 && High(v, n) == (if v < 0 then -1 else 0)
    decreases if v >= 0 then v else -v
  {
    if -64 <= v < 64 {
      assert High(v, 1) == v / 128;
    } else {
      SignedCarries(v / 128);
      CarriesMore(EncodeS(v / 128), v);
    }
  }

  /** The cursor ends just past the written bytes. */
  lemma {:induction false} EndOf(buf: seq<byte>, p: nat, bytes: seq<byte>, v: int, k: nat)
    requires Written(buf, p, bytes) && Carries(bytes, v) && k < |bytes|
    ensures LebEnd(buf, p + k) == Some(p + |bytes|)
    decreases |bytes| - k
  {
    assert buf[p + k] == bytes[k];
    if k < |bytes| - 1 {
      EndOf(buf, p, bytes, v, k + 1);
    }
  }

  /** Up to four groups are put together exactly. */
  lemma {:induction false} FourExact(buf: seq<byte>, p: nat, bytes: seq<byte>, v: int, k: nat)
    requires Written(buf, p, bytes) && Carries(bytes, v) && k <= 4 && k <= |bytes|
    ensures Gathered(buf, p, k) == Low(v, k)
  {
    hide Or, Pow2, Piece, High, Low;
    if k > 0 {
      FourExact(buf, p, bytes, v, k - 1);
      assert buf[p + k - 1] == bytes[k - 1];
      LowGrows(v, k - 1);
      Split(v, k - 1);
      OrAdds(Low(v, k - 1), High(v, k - 1) % 128, 7 * (k - 1));
      SmallPiece(bytes[k - 1], k - 1);
    } else {
      LowNone(v);
    }
  }

  lemma LowNone(v: int)
    ensures Low(v, 0) == 0
  {
  }

  /** A group that fits an int keeps all its bits. */
  lemma SmallPiece(b: byte, k: nat)
    requires k < 4
    ensures Piece(b, 7 * k) == Pow2(7 * k) * (b % 128)
  {
    SmallPowers();
    hide Pow2;
    if k == 0 {
    } else if k == 1 {
    } else if k == 2 {
    } else {
    }
  }

  lemma SmallPowers()
    ensures Pow2(0) == 1 && Pow2(7) == 128 && Pow2(14) == 16384 && Pow2(21) == 0x20_0000 && Pow2(28) == 0x1000_0000
    ensures Pow2(3) == 8 && Pow2(31) == TWO_31
  {
    assert Pow2(3) == 8;
    assert Pow2(7) == 16 * Pow2(3);
    SevenMore(1);
    SevenMore(2);
    SevenMore(3);
    assert Pow2(31) == 8 * Pow2(28);
  }

  /** The low four bits of a group, as a signed number. */
  function Nibble(g: int): int {
    if g % 16 < 8 then g % 16 else g % 16 - 16
  }

  /** Of the fifth group only four bits are kept, and the highest becomes the sign. */
  lemma FifthGroup(buf: seq<byte>, p: nat, bytes: seq<byte>, v: int)
    requires Written(buf, p, bytes) && Carries(bytes, v) && |bytes| >= 5
    ensures Gathered(buf, p, 5) == Low(v, 4) + 0x1000_0000 * Nibble(High(v, 4) % 128)
  {
    FourExact(buf, p, bytes, v, 4);
    assert buf[p + 4] == bytes[4];
    hide Or, Pow2, Piece, High, Low, Nibble;
    SmallPowers();
    Split(v, 4);
    FifthPiece(bytes[4]);
    OrAdds(Low(v, 4), Nibble(High(v, 4) % 128), 28);
  }

  lemma FifthPiece(b: byte)
    ensures Piece(b, 28) == 0x1000_0000 * Nibble(b % 128)
  {
    SmallPowers();
    var g := b % 128;
    var m := g / 16;
    assert g == 16 * m + g % 16;
    DivIs(g * 0x1000_0000, TWO_32, m, (g % 16) * 0x1000_0000);
  }

  /** Whatever is read is a 32-bit signed number, widened. */
  lemma {:induction false} GatheredRange(buf: seq<byte>, p: nat, n: nat)
    requires p + n <= |buf|
    ensures -TWO_31 <= Gathered(buf, p, n) < TWO_31
  {
    if n > 0 {
      GatheredRange(buf, p, n - 1);
      SmallPowers();
      OrInRange(Gathered(buf, p, n - 1), Piece(buf[p + n - 1], 7 * (n - 1)), 31);
    }
  }
}
