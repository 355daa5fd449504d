/** Bitwise or, shifts and truncation on whole numbers: a negative number stands for its
    two's complement pattern, extended to the left for ever. */
module Words {
  const TWO_31: int := 0x8000_0000
  const TWO_32: int := 0x1_0000_0000
  const TWO_63: int := 0x8000_0000_0000_0000
  const TWO_64: int := 0x1_0000_0000_0000_0000

  function Pow2(k: nat): (r: int)
    ensures r > 0
  {
    if k == 0 then 1 else 2 * Pow2(k - 1)
  }

  /** The 32-bit signed integer with the same low bits. */
  function ToInt32(x: int): (r: int)
    ensures -TWO_31 <= r < TWO_31
  {
    var m := x % TWO_32;
    if m < TWO_31 then m else m - TWO_32
  }

  function ToU64(x: int): (r: nat)
    ensures r < TWO_64
  {
    x % TWO_64
  }

  function ToS64(x: int): (r: int)
    ensures -TWO_63 <= r < TWO_63
  {
    var m := x % TWO_64;
    if m < TWO_63 then m else m - TWO_64
  }

  function Or(a: int, b: int): int
    decreases if a >= 0 then a else -a - 1
  {
    if a == 0 then b
    else if b == 0 then a
    else if a == -1 || b == -1 then -1
    else 2 * Or(a / 2, b / 2) + (if a % 2 == 1 || b % 2 == 1 then 1 else 0)
  }

  /** Bit by bit, whatever the signs. */
  lemma OrUnfold(a: int, b: int)
    ensures Or(a, b) == 2 * Or(a / 2, b / 2) + (if a % 2 == 1 || b % 2 == 1 then 1 else 0)
  {
  }

  /** Low bits of one operand only pass through. */
  lemma {:induction false} OrShift(a: int, b: int, r: int, k: nat)
    requires 0 <= r < Pow2(k)
    ensures Or(Pow2(k) * a + r, Pow2(k) * b) == Pow2(k) * Or(a, b) + r
    decreases k
  {
    if k == 0 {
      assert Pow2(0) == 1;
    } else {
      var p := Pow2(k - 1);
      OrShift(a, b, r / 2, k - 1);
      Doubled(p, a);
      Doubled(p, b);
      Doubled(p, Or(a, b));
      OrUnfold(2 * (p * a) + r, 2 * (p * b));
      Halves(p * a, r);
      Halves(p * b, 0);
    }
  }

  lemma Doubled(p: int, a: int)
    ensures (2 * p) * a == 2 * (p * a)
  {
  }

  lemma Halves(x: int, r: int)
    ensures (2 * x + r) / 2 == x + r / 2 && (2 * x + r) % 2 == r % 2
  {
  }

  /** Disjoint bits add up. */
  lemma OrAdds(r: int, b: int, k: nat)
    requires 0 <= r < Pow2(k)
    ensures Or(r, Pow2(k) * b) == Pow2(k) * b + r
  {
    OrShift(0, b, r, k);
    assert Pow2(k) * 0 + r == r;
  }

  /** A run of low ones fills the low bits. */
  lemma {:induction false} OrFills(x: int, k: nat)
    ensures Or(x, Pow2(k) - 1) == Pow2(k) * (x / Pow2(k)) + Pow2(k) - 1
    decreases k
  {
    if k == 0 {
      assert Pow2(0) == 1;
    } else {
      var p := Pow2(k - 1);
      OrFills(x / 2, k - 1);
      LastBit(x, p);
      DivTwice(x, p);
      Doubled(p, x / 2 / p);
    }
  }

  lemma LastBit(x: int, p: int)
    ensures Or(x, 2 * p - 1) == 2 * Or(x / 2, p - 1) + 1
  {
    OrUnfold(x, 2 * p - 1);
    assert (2 * p - 1) / 2 == p - 1;
  }

  lemma DivTwice(x: int, p: int)
    requires p > 0
    ensures x / (2 * p) == x / 2 / p
  {
    var q, r := x / 2 / p, x / 2 % p;
    Doubled(p, q);
    DivIs(x, 2 * p, q, 2 * r + x % 2);
  }

  lemma DivIs(x: int, d: int, q: int, r: int)
    requires d > 0 && 0 <= r < d && x == d * q + r
    ensures x / d == q && x % d == r
  {
    var q', r' := x / d, x % d;
    assert x == d * q' + r';
    Spread(d, q, q');
    Spread(d, q', q);
  }

  lemma Spread(d: int, q: int, q': int)
    requires d > 0
    ensures q > q' ==> d * q >= d * q' + d
  {
    if q > q' {
      var n := q - q' - 1;
      assert d * n >= 0;
      assert d * q == d * (q' + 1 + n) == d * q' + d + d * n;
    }
  }

  /** The or of two numbers of k bits and a sign has no more bits. */
  lemma {:induction false} OrInRange(a: int, b: int, k: nat)
    requires -Pow2(k) <= a < Pow2(k) && -Pow2(k) <= b < Pow2(k)
    ensures -Pow2(k) <= Or(a, b) < Pow2(k)
    decreases k
  {
    if k == 0 {
      assert Pow2(0) == 1;
    } else {
      OrInRange(a / 2, b / 2, k - 1);
      OrUnfold(a, b);
    }
  }

  /** Setting bits of a negative number brings it up, but not to zero. */
  lemma {:induction false} OrNegative(a: int, b: int)
    requires b < 0
    ensures b <= Or(a, b) < 0
    decreases if a >= 0 then a else -a - 1
  {
    if a != 0 && a != -1 && b != -1 {
      OrNegative(a / 2, b / 2);
    }
  }
}
