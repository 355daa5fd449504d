/** Bytes, and unsigned numbers stored with the least significant byte first. */
module Bytes {
  import opened Words

  type byte = x: int | 0 <= x < 256

  function ReadLE(m: seq<byte>, p: nat, n: nat): nat
    requires p + n <= |m|
    decreases n
  {
    if n == 0 then 0 else m[p] + 256 * ReadLE(m, p + 1, n - 1)
  }

  function Pow256(n: nat): (r: nat)
    ensures r > 0
  {
    if n == 0 then 1 else 256 * Pow256(n - 1)
  }

  /** Byte i of a number. */
  function ByteOf(v: nat, i: nat): byte
    decreases i
  {
    if i == 0 then v % 256 else ByteOf(v / 256, i - 1)
  }

  lemma {:induction false} ReadBack(m: seq<byte>, p: nat, n: nat, v: nat)
    requires p + n <= |m| && v < Pow256(n) && forall i :: 0 <= i < n ==> m[p + i] == ByteOf(v, i)
    ensures ReadLE(m, p, n) == v
    decreases n
  {
    if n > 0 {
      forall i | 0 <= i < n - 1 ensures m[p + 1 + i] == ByteOf(v / 256, i) {
        assert m[p + (i + 1)] == ByteOf(v, i + 1);
      }
      ReadBack(m, p + 1, n - 1, v / 256);
      assert m[p + 0] == ByteOf(v, 0);
    }
  }

  lemma {:induction false} ReadSame(a: seq<byte>, b: seq<byte>, p: nat, n: nat)
    requires p + n <= |a| && p + n <= |b| && a[p..p + n] == b[p..p + n]
    ensures ReadLE(a, p, n) == ReadLE(b, p, n)
    decreases n
  {
    if n > 0 {
      assert a[p] == a[p..p + n][0] && b[p] == b[p..p + n][0];
      assert a[p + 1..p + n] == a[p..p + n][1..] && b[p + 1..p + n] == b[p..p + n][1..];
      ReadSame(a, b, p + 1, n - 1);
    }
  }

  function SignExtend(x: nat, n: nat): int {
    if 2 * x < Pow256(n) then x else x - Pow256(n)
  }

  function LE(v: nat, n: nat): (s: seq<byte>)
    ensures |s| == n
  {
    if n == 0 then [] else [v % 256] + LE(v / 256, n - 1)
  }

  lemma {:induction false} ReadsLE(buf: seq<byte>, p: nat, v: nat, n: nat)
    requires p + n <= |buf| && buf[p..p + n] == LE(v, n)
    ensures ReadLE(buf, p, n) == v % Pow256(n)
    decreases n
  {
    if n > 0 {
      assert buf[p] == LE(v, n)[0];
      assert buf[p + 1..p + n] == LE(v, n)[1..];
      ReadsLE(buf, p + 1, v / 256, n - 1);
      var m := Pow256(n - 1);
      ModStep(v, m);
    }
  }

  lemma ModStep(v: nat, m: nat)
    requires m > 0
    ensures v % (256 * m) == v % 256 + 256 * (v / 256 % m)
  {
    var q, r := v / 256 / m, v / 256 % m;
    assert v / 256 == m * q + r;
    assert v == 256 * (m * q) + (256 * r + v % 256);
    assert 256 * (m * q) == (256 * m) * q;
    DivIs(v, 256 * m, q, 256 * r + v % 256);
  }

  lemma Widths()
    ensures Pow256(2) == 0x1_0000 && Pow256(4) == TWO_32 && Pow256(8) == TWO_64
  {
    assert Pow256(2) == 0x1_0000;
    assert Pow256(4) == 0x1_0000 * Pow256(2);
    assert Pow256(6) == 0x1_0000 * Pow256(4);
    assert Pow256(8) == 0x1_0000 * Pow256(6);
  }
}
