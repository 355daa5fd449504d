/** Pointers in the encodings of the exception tables. Memory is the buffer, and an address is an
    index into it. */
module Pointers {
  import opened Bytes
  import opened Leb
  import opened LebProof
  import opened Words

  const OMIT: byte := 0xff
  const ABSPTR: byte := 0x00
  const ULEB128: byte := 0x01
  const UDATA2: byte := 0x02
  const UDATA4: byte := 0x03
  const UDATA8: byte := 0x04
  const SLEB128: byte := 0x09
  const SDATA2: byte := 0x0a
  const SDATA4: byte := 0x0b
  const SDATA8: byte := 0x0c
  const PCREL: byte := 0x10
  const INDIRECT: byte := 0x80

  /** The formats, stored as they are. */
  predicate Supported(encoding: byte) {
    || encoding == OMIT || encoding == ABSPTR || encoding == ULEB128 || encoding == SLEB128
    || encoding == UDATA2 || encoding == UDATA4 || encoding == UDATA8
    || encoding == SDATA2 || encoding == SDATA4 || encoding == SDATA8
  }

  /** A word of n bytes in place. */
  function Fixed(buf: seq<byte>, p: nat, n: nat, signed: bool): Decoded {
    if p + n > |buf| then Fault
    else
      var x := ReadLE(buf, p, n);
      Got(ToU64(if signed then SignExtend(x, n) else x), p + n)
  }

  function ByFormat(buf: seq<byte>, p: nat, encoding: byte): Decoded {
    match encoding % 16
    case 0 => Fixed(buf, p, 8, false)
    case 1 => Uleb(buf, p)
    case 9 => Sleb(buf, p)
    case 2 => Fixed(buf, p, 2, false)
    case 3 => Fixed(buf, p, 4, false)
    case 4 => Fixed(buf, p, 8, false)
    case 10 => Fixed(buf, p, 2, true)
    case 11 => Fixed(buf, p, 4, true)
    case 12 => Fixed(buf, p, 8, true)
    case _ => Aborted
  }

  /** Count the value from the place it is stored at, if the encoding says so. */
  function Rebase(v: nat, p: nat, encoding: byte): (r: Decoded)
    ensures !r.Fault? && (r.Got? ==> r.value < TWO_64 || r.value == v)
  {
    match encoding / 16 % 8
    case 0 => Got(v, p)
    case 1 => Got(ToU64(v + p), p)
    case _ => Aborted
  }

  function EncodedPtr(buf: seq<byte>, p: nat, encoding: byte): (r: Decoded)
    ensures r.Got? ==> r.value < TWO_64 && p <= r.next && (p <= |buf| ==> r.next <= |buf|)
  {
    if encoding == OMIT then Got(0, p)
    else
      match ByFormat(buf, p, encoding)
      case Got(raw, next) =>
        (match Rebase(raw, p, encoding)
         case Got(v, _) =>
           if encoding < INDIRECT then Got(v, next)
           else
             (match Fixed(buf, v, 8, false)
              case Got(w, _) => Got(w, next)
              case r => r)
         case r => r)
      case r => r
  }

  /** Read the value, then add the place it is counted from, then follow it if it is indirect. */
  method ReadEncodedPointer(buf: seq<byte>, p: nat, encoding: byte) returns (r: Decoded)
    ensures r == EncodedPtr(buf, p, encoding)
  {
    if encoding == OMIT {
      return Got(0, p);
    }
    var format := encoding % 16;
    if format == ULEB128 {
      r := ReadULEB128(buf, p);
    } else if format == SLEB128 {
      r := ReadSLEB128(buf, p);
    } else if format == ABSPTR || format == UDATA8 {
      r := ReadFixed(buf, p, 8, false);
    } else if format == UDATA2 {
      r := ReadFixed(buf, p, 2, false);
    } else if format == UDATA4 {
      r := ReadFixed(buf, p, 4, false);
    } else if format == SDATA2 {
      r := ReadFixed(buf, p, 2, true);
    } else if format == SDATA4 {
      r := ReadFixed(buf, p, 4, true);
    } else if format == SDATA8 {
      r := ReadFixed(buf, p, 8, true);
    } else {
      return Aborted;
    }
    if !r.Got? {
      return r;
    }
    var result, next := r.value, r.next;
    var application := encoding / 16 % 8;
    if application == PCREL / 16 {
      result := ToU64(result + p);
    } else if application != 0 {
      return Aborted;
    }
    if encoding >= INDIRECT {
      r := ReadFixed(buf, result, 8, false);
      if !r.Got? {
        return r;
      }
      result := r.value;
    }
    r := Got(result, next);
  }

  method ReadFixed(buf: seq<byte>, p: nat, n: nat, signed: bool) returns (r: Decoded)
    ensures r == Fixed(buf, p, n, signed)
  {
    if p + n > |buf| {
      return Fault;
    }
    var x := ReadLE(buf, p, n);
    r := Got(ToU64(if signed then SignExtend(x, n) else x), p + n);
  }

  /** Words of two, four and eight bytes, the least significant byte first. */
  function Two(buf: seq<byte>, p: nat): nat
    requires p + 2 <= |buf|
  {
    var low: nat, high: nat := buf[p], buf[p + 1];
    low + 0x100 * high
  }

  function Four(buf: seq<byte>, p: nat): nat
    requires p + 4 <= |buf|
  {
    Two(buf, p) + 0x1_0000 * Two(buf, p + 2)
  }

  function Eight(buf: seq<byte>, p: nat): nat
    requires p + 8 <= |buf|
  {
    Four(buf, p) + 0x1_0000_0000 * Four(buf, p + 4)
  }

  lemma LittleEndian(buf: seq<byte>, p: nat)
    ensures p + 2 <= |buf| ==> ReadLE(buf, p, 2) == Two(buf, p) < 0x1_0000
    ensures p + 4 <= |buf| ==> ReadLE(buf, p, 4) == Four(buf, p) < 0x1_0000_0000
    ensures p + 8 <= |buf| ==> ReadLE(buf, p, 8) == Eight(buf, p) < 0x1_0000_0000_0000_0000
  {
    if p + 2 <= |buf| {
      assert ReadLE(buf, p + 1, 1) == buf[p + 1] + 256 * ReadLE(buf, p + 2, 0);
    }
    if p + 4 <= |buf| {
      ReadTwoMore(buf, p, 4);
      assert ReadLE(buf, p + 3, 1) == buf[p + 3] + 256 * ReadLE(buf, p + 4, 0);
      ReadTwoMore(buf, p + 2, 2);
    }
    if p + 8 <= |buf| {
      ReadTwoMore(buf, p, 8);
      ReadTwoMore(buf, p + 2, 6);
      ReadTwoMore(buf, p + 4, 4);
      ReadTwoMore(buf, p + 6, 2);
    }
  }

  lemma ReadTwoMore(buf: seq<byte>, p: nat, n: nat)
    requires 2 <= n && p + n <= |buf|
    ensures ReadLE(buf, p, n) == Two(buf, p) + 0x1_0000 * ReadLE(buf, p + 2, n - 2)
  {
    assert ReadLE(buf, p + 1, n - 1) == buf[p + 1] + 256 * ReadLE(buf, p + 2, n - 2);
  }

  lemma FormatsByCode(buf: seq<byte>, p: nat)
    ensures EncodedPtr(buf, p, 0xff) == Got(0, p)
    ensures ByFormat(buf, p, 0x01) == Uleb(buf, p) && ByFormat(buf, p, 0x09) == Sleb(buf, p)
    ensures ByFormat(buf, p, 0x02) == Fixed(buf, p, 2, false) && ByFormat(buf, p, 0x0a) == Fixed(buf, p, 2, true)
    ensures ByFormat(buf, p, 0x03) == Fixed(buf, p, 4, false) && ByFormat(buf, p, 0x0b) == Fixed(buf, p, 4, true)
    ensures ByFormat(buf, p, 0x00) == ByFormat(buf, p, 0x04) == Fixed(buf, p, 8, false) && ByFormat(buf, p, 0x0c) == Fixed(buf, p, 8, true)
  {
    hide Uleb, Sleb, Fixed, Rebase;
  }

  lemma FixedIs(buf: seq<byte>, p: nat, n: nat, v: nat)
    requires p + n <= |buf|
    requires (n == 2 && v == Two(buf, p)) || (n == 4 && v == Four(buf, p)) || (n == 8 && v == Eight(buf, p))
    ensures Fixed(buf, p, n, false) == Got(v, p + n) && (n == 8 ==> Fixed(buf, p, n, true) == Got(v, p + n))
    ensures n == 2 ==> Fixed(buf, p, n, true) == Got(if v < 0x8000 then v else v + 0xffff_ffff_ffff_0000, p + n)
    ensures n == 4 ==> Fixed(buf, p, n, true) == Got(if v < 0x8000_0000 then v else v + 0xffff_ffff_0000_0000, p + n)
  {
    hide ReadLE, Pow256, Two, Four, Eight;
    Widths();
    LittleEndian(buf, p);
  }

  /** The codes in numbers: 0xff is no pointer, and the low half of any other is the format. */
  lemma FormatCodes(buf: seq<byte>, p: nat)
    ensures EncodedPtr(buf, p, 0xff) == Got(0, p)
    ensures ByFormat(buf, p, 0x01) == Uleb(buf, p) && ByFormat(buf, p, 0x09) == Sleb(buf, p)
    ensures p + 2 <= |buf| ==> ByFormat(buf, p, 0x02) == Got(Two(buf, p), p + 2)
    ensures p + 2 <= |buf| && Two(buf, p) < 0x8000 ==> ByFormat(buf, p, 0x0a) == Got(Two(buf, p), p + 2)
    ensures p + 2 <= |buf| && Two(buf, p) >= 0x8000 ==> ByFormat(buf, p, 0x0a) == Got(Two(buf, p) + 0xffff_ffff_ffff_0000, p + 2)
    ensures p + 4 <= |buf| ==> ByFormat(buf, p, 0x03) == Got(Four(buf, p), p + 4)
    ensures p + 4 <= |buf| && Four(buf, p) < 0x8000_0000 ==> ByFormat(buf, p, 0x0b) == Got(Four(buf, p), p + 4)
    ensures p + 4 <= |buf| && Four(buf, p) >= 0x8000_0000 ==> ByFormat(buf, p, 0x0b) == Got(Four(buf, p) + 0xffff_ffff_0000_0000, p + 4)
    ensures p + 8 <= |buf| ==> ByFormat(buf, p, 0x00) == ByFormat(buf, p, 0x04) == ByFormat(buf, p, 0x0c) == Got(Eight(buf, p), p + 8)
  {
    hide Uleb, Sleb, Fixed, Two, Four, Eight, ByFormat, EncodedPtr;
    FormatsByCode(buf, p);
    if p + 2 <= |buf| { FixedIs(buf, p, 2, Two(buf, p)); }
    if p + 4 <= |buf| { FixedIs(buf, p, 4, Four(buf, p)); }
    if p + 8 <= |buf| { FixedIs(buf, p, 8, Eight(buf, p)); }
  }

  /** Only the low half of an encoding says the format, and seven of its values are none. */
  lemma LowHalf(buf: seq<byte>, p: nat, code: byte)
    ensures ByFormat(buf, p, code) == ByFormat(buf, p, code % 0x10)
    ensures code % 0x10 in {0x5, 0x6, 0x7, 0x8, 0xd, 0xe, 0xf} ==> ByFormat(buf, p, code) == Aborted
  {
    hide Uleb, Sleb, Fixed;
    assert code % 0x10 % 0x10 == code % 0x10;
  }

  /** What the rest of an encoding does with the value v that its format gives: 0x10 adds the place
      of the pointer, modulo the word; 0x20 and more are refused; 0x80 reads the word there. */
  lemma ApplicationCodes(buf: seq<byte>, p: nat, encoding: byte, v: nat, next: nat)
    requires encoding != 0xff && ByFormat(buf, p, encoding) == Got(v, next)
    ensures encoding < 0x10 ==> EncodedPtr(buf, p, encoding) == Got(v, next)
    ensures 0x10 <= encoding < 0x20 ==> EncodedPtr(buf, p, encoding) == Got((v + p) % 0x1_0000_0000_0000_0000, next)
    ensures 0x20 <= encoding < 0x80 || 0xa0 <= encoding ==> EncodedPtr(buf, p, encoding) == Aborted
    ensures 0x80 <= encoding < 0x90 && v + 8 <= |buf| ==> EncodedPtr(buf, p, encoding) == Got(Eight(buf, v), next)
    ensures var at := (v + p) % 0x1_0000_0000_0000_0000;
      0x90 <= encoding < 0xa0 && at + 8 <= |buf| ==> EncodedPtr(buf, p, encoding) == Got(Eight(buf, at), next)
  {
    hide Uleb, Sleb, ByFormat, ReadLE, Eight;
    LittleEndian(buf, v);
    LittleEndian(buf, (v + p) % 0x1_0000_0000_0000_0000);
  }

  // ----- writing

  /** What an assembler writes for the 64-bit word v. */
  function EncodePtr(encoding: byte, v: nat): seq<byte>
    requires Supported(encoding)
  {
    if encoding == OMIT then []
    else if encoding == ULEB128 then EncodeU(v)
    else if encoding == SLEB128 then EncodeS(ToS64(v))
    else LE(v, Width(encoding))
  }

  function Width(encoding: byte): nat {
    if encoding == UDATA2 || encoding == SDATA2 then 2 else if encoding == UDATA4 || encoding == SDATA4 then 4 else 8
  }

  /** The words that survive being written and read. */
  predicate InRange(encoding: byte, v: nat) {
    if encoding == OMIT then v == 0
    else if encoding == ULEB128 then v < TWO_31 || v >= TWO_64 - 8
    else if encoding == SLEB128 then -0x800_0000 <= ToS64(v) < TWO_31
    else if encoding == UDATA2 then v < 0x1_0000
    else if encoding == UDATA4 then v < TWO_32
    else if encoding == SDATA2 then -0x8000 <= ToS64(v) < 0x8000
    else if encoding == SDATA4 then -TWO_31 <= ToS64(v) < TWO_31
    else true
  }

  /** A pointer is read back, in any supported direct encoding, exactly when the encoding can
      hold it; the cursor is right in every case. */
  lemma PointerRoundTrip(buf: seq<byte>, p: nat, encoding: byte, v: nat)
    requires Supported(encoding) && v < TWO_64 && Written(buf, p, EncodePtr(encoding, v))
    ensures var r := EncodedPtr(buf, p, encoding);
      r.Got? && r.next == p + |EncodePtr(encoding, v)| && (r.value == v <==> InRange(encoding, v))
  {
    hide Uleb, Sleb, EncodeU, EncodeS, LE, ReadLE, Pow256, Written, ToU64, ToS64;
    if encoding == ULEB128 {
      UnsignedRoundTrip(buf, p, v);
    } else if encoding == SLEB128 {
      SignedRoundTrip(buf, p, ToS64(v));
      SameWord(Sleb(buf, p).value, ToS64(v));
      BackToU64(v);
    } else if encoding != OMIT {
      FixedRoundTrip(buf, p, encoding, v);
    }
  }

  /** A pointer stored as its distance from its own place is read back exactly when the distance
      is in range. */
  lemma RelativeRoundTrip(buf: seq<byte>, p: nat, encoding: byte, v: nat)
    requires Supported(encoding) && encoding != OMIT && v < TWO_64 && p < TWO_64
    requires Written(buf, p, EncodePtr(encoding, ToU64(v - p)))
    ensures var r := EncodedPtr(buf, p, PCREL + encoding);
      && r.Got? && r.next == p + |EncodePtr(encoding, ToU64(v - p))|
      && (r.value == v <==> InRange(encoding, ToU64(v - p)))
  {
    hide Uleb, Sleb, EncodeU, EncodeS, LE, ReadLE, Pow256, Written, ToU64, ToS64, ByFormat, EncodePtr, InRange;
    PointerRoundTrip(buf, p, encoding, ToU64(v - p));
    SameFormat(buf, p, encoding);
    Distance(EncodedPtr(buf, p, encoding).value, p, v);
  }

  /** The format is the low half of an encoding. */
  lemma SameFormat(buf: seq<byte>, p: nat, encoding: byte)
    requires Supported(encoding) && encoding != OMIT
    ensures EncodedPtr(buf, p, encoding) == ByFormat(buf, p, encoding)
    ensures ByFormat(buf, p, PCREL + encoding) == ByFormat(buf, p, encoding) && (PCREL + encoding) / 16 == 1
  {
    hide Uleb, Sleb, Fixed, Pow256, ToU64;
    assert (PCREL + encoding) % 16 == encoding % 16 == encoding;
  }

  lemma Distance(raw: nat, p: nat, v: nat)
    requires raw < TWO_64 && p < TWO_64 && v < TWO_64
    ensures ToU64(raw + p) == v <==> raw == ToU64(v - p)
  {
  }

  lemma BackToU64(v: nat)
    requires v < TWO_64
    ensures ToU64(ToS64(v)) == v
  {
  }

  lemma FixedRoundTrip(buf: seq<byte>, p: nat, encoding: byte, v: nat)
    requires Supported(encoding) && encoding != OMIT && encoding != ULEB128 && encoding != SLEB128
    requires v < TWO_64 && Written(buf, p, LE(v, Width(encoding)))
    ensures var r := ByFormat(buf, p, encoding);
      r.Got? && r.next == p + Width(encoding) && (r.value == v <==> InRange(encoding, v))
  {
    hide ReadLE, Pow256, LE, Uleb, Sleb, Written, ToU64, ToS64, SignExtend;
    WrittenFits(buf, p, LE(v, Width(encoding)));
    ReadsLE(buf, p, v, Width(encoding));
    Widths();
    Truncated(v);
  }

  lemma WrittenFits(buf: seq<byte>, p: nat, bytes: seq<byte>)
    requires Written(buf, p, bytes)
    ensures p + |bytes| <= |buf| && buf[p..p + |bytes|] == bytes
  {
  }

  /** Which words come back from two, four and eight bytes. */
  lemma Truncated(v: nat)
    requires v < TWO_64
    ensures ToU64(v % 0x1_0000) == v <==> v < 0x1_0000
    ensures ToU64(v % TWO_32) == v <==> v < TWO_32
    ensures ToU64(v % TWO_64) == v
    ensures ToU64(SignExtend(v % 0x1_0000, 2)) == v <==> -0x8000 <= ToS64(v) < 0x8000
    ensures ToU64(SignExtend(v % TWO_32, 4)) == v <==> -TWO_31 <= ToS64(v) < TWO_31
    ensures ToU64(SignExtend(v % TWO_64, 8)) == v
  {
    Widths();
    hide Pow256, ToS64;
    SignedHalf(v, 0x1_0000, 0x1_0000_0000_0000);
    SignedHalf(v, TWO_32, TWO_32);
    SignedHalf(v, TWO_64, 1);
    SignedWord(v);
    hide ToU64;
    UnsignedPart(v, 0x1_0000);
    UnsignedPart(v, TWO_32);
  }

  lemma UnsignedPart(v: nat, m: int)
    requires v < TWO_64 && 0 < m <= TWO_64
    ensures ToU64(v % m) == v <==> v < m
  {
    var r := v % m;
    assert r < m <= TWO_64 && ToU64(r) == r;
    hide ToU64;
    if v < m {
      DivIs(v, m, 0, v);
    }
  }

  lemma SignedWord(v: nat)
    ensures -TWO_64 <= 2 * ToS64(v) < TWO_64 && (v < TWO_64 ==> ToU64(v % TWO_64) == v)
  {
  }

  lemma SignedHalf(v: nat, m: int, k: int)
    requires v < TWO_64 && m > 0 && m * k == TWO_64 && k > 0 && m % 2 == 0
    ensures var x := v % m; ToU64(if 2 * x < m then x else x - m) == v <==> -m <= 2 * ToS64(v) < m
  {
    var x, s := v % m, ToS64(v);
    var y := if 2 * x < m then x else x - m;
    var d := SignedMultiple(v, m, k, y);
    hide ToS64, ToU64;
    InOneSpan(m, d, s, y);
    assert m * k >= m by { Spread(m, k, 0); }
    NearWord(y, v);
  }

  lemma SignedMultiple(v: nat, m: int, k: int, y: int) returns (d: int)
    requires v < TWO_64 && m > 0 && m * k == TWO_64 && (y == v % m || y == v % m - m)
    ensures ToS64(v) == m * d + y
  {
    var q := v / m;
    assert v == m * q + v % m;
    d := q;
    if v >= TWO_63 {
      assert m * (q - k) == m * q - m * k;
      d := q - k;
    }
    if y != v % m {
      assert m * (d + 1) == m * d + m;
      d := d + 1;
    }
  }

  /** Numbers that differ by a multiple of m and lie in one span of m are equal. */
  lemma InOneSpan(m: int, d: int, s: int, y: int)
    requires m > 0 && s == m * d + y && -m <= 2 * y < m
    ensures -m <= 2 * s < m <==> s == y
  {
    Spread(m, d, 0);
    Spread(m, 0, d);
    if d == 0 { assert m * d == 0; }
  }

  lemma NearWord(y: int, v: nat)
    requires v < TWO_64 && -TWO_64 <= 2 * y < TWO_64
    ensures ToU64(y) == v <==> ToS64(v) == y
  {
  }
}
