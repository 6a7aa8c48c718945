/**
 * Exact arithmetic standing in for the double arithmetic of the tile
 * renderers: powers of two, the zoom level of a scale (Math.log / Math.log(2)
 * floored or truncated), Java's (int) cast of a double and Java's truncating
 * integer division.
 */
module TileMath {

  /** 2^k for every integer k, as Math.pow(2, k) computes it for small k. */
  function Pow2(k: int): (r: real)
    ensures r > 0.0
    decreases if k < 0 then -k else k
  {
    if k == 0 then 1.0 else if k > 0 then 2.0 * Pow2(k - 1) else Pow2(k + 1) / 2.0
  }

  lemma Pow2Succ(k: int)
    ensures Pow2(k + 1) == 2.0 * Pow2(k)
  {
  }

  lemma {:induction false} Pow2Negate(m: int)
    requires m >= 0
    ensures Pow2(-m) * Pow2(m) == 1.0
  {
    if m > 0 {
      Pow2Negate(m - 1);
      Pow2Succ(m - 1);
      Pow2Succ(-m);
    }
  }

  /** floor(log2 s) for s >= 1: how often s can be halved and stay at least 1. */
  function Log2AtLeastOne(s: real): (k: nat)
    requires s >= 1.0
    ensures Pow2(k) <= s < Pow2(k + 1)
    decreases s.Floor
  {
    if s < 2.0 then 0
    else
      var k := Log2AtLeastOne(s / 2.0);
      Pow2Succ(k);
      Pow2Succ(k + 1);
      1 + k
  }

  /** -floor(log2 s) for 0 < s < 1: how often s must be doubled to reach 1. */
  function Log2BelowOne(s: real): (m: int)
    requires 0.0 < s < 1.0
    ensures m >= 1 && Pow2(-m) <= s < Pow2(-m + 1)
    decreases (1.0 / s).Floor
  {
    if s >= 0.5 then 1
    else
      assert 1.0 / (2.0 * s) == (1.0 / s) / 2.0;
      var m := Log2BelowOne(2.0 * s);
      Pow2Succ(-m - 1);
      Pow2Succ(-m);
      1 + m
  }

  /** The zoom level floor(log2 s), as (int) Math.floor(Math.log(s) / Math.log(2)) intends it. */
  function FloorLog2(s: real): (k: int)
    requires s > 0.0
    ensures Pow2(k) <= s < Pow2(k + 1)
  {
    if s >= 1.0 then Log2AtLeastOne(s) else -Log2BelowOne(s)
  }

  /**
   * The zoom level (int) (Math.log(s) / Math.log(2)): the cast truncates
   * toward zero, so below 1 the level is rounded up, not down.
   */
  function TruncLog2(s: real): (k: int)
    requires s > 0.0
    ensures s >= 1.0 ==> k >= 0 && Pow2(k) <= s < Pow2(k + 1)
    ensures s < 1.0 ==> k <= 0 && Pow2(k - 1) < s <= Pow2(k)
  {
    if s >= 1.0 then Log2AtLeastOne(s)
    else
      var m: int := Log2AtLeastOne(1.0 / s);
      Pow2Negate(m);
      Pow2Negate(m + 1);
      ReciprocalBounds(s, Pow2(m), Pow2(m + 1), Pow2(-m), Pow2(-m - 1));
      -m
  }

  /** From lo <= 1/s < hi with lo * loInv == 1 and hi * hiInv == 1 follows hiInv < s <= loInv. */
  lemma ReciprocalBounds(s: real, lo: real, hi: real, loInv: real, hiInv: real)
    requires s > 0.0 && lo > 0.0 && hi > 0.0
    requires lo <= 1.0 / s < hi
    requires lo * loInv == 1.0 && hi * hiInv == 1.0
    ensures hiInv < s <= loInv
  {
    var t := 1.0 / s;
    assert t * s == 1.0;
    assert loInv > 0.0 && hiInv > 0.0;
    assert lo * s <= t * s;
    assert s == (lo * s) * loInv;
    MulLe(lo * s, 1.0, loInv);
    assert t * s < hi * s;
    assert s == (hi * s) * hiInv;
    MulLt(1.0, hi * s, hiInv);
  }

  lemma MulLe(a: real, b: real, c: real)
    requires a <= b && c >= 0.0
    ensures a * c <= b * c
  {
    assert b * c - a * c == (b - a) * c;
  }

  lemma MulLt(a: real, b: real, c: real)
    requires a < b && c > 0.0
    ensures a * c < b * c
  {
    assert b * c - a * c == (b - a) * c;
  }

  /** Multiplying out a bound on a quotient by a positive divisor. */
  lemma MulOutLe(a: real, q: real, c: real)
    requires c > 0.0 && a <= q / c
    ensures a * c <= q
  {
    MulLe(a, q / c, c);
  }

  lemma MulOutGt(a: real, q: real, c: real)
    requires c > 0.0 && q / c < a
    ensures q < a * c
  {
    MulLt(q / c, a, c);
  }

  /**
   * Java's (int) cast of a double: truncation toward zero. Values beyond the
   * int range, which Java saturates, are not distinguished here.
   */
  function Trunc(v: real): (r: int)
    ensures v >= 0.0 ==> r as real <= v < r as real + 1.0
    ensures v < 0.0 ==> r as real - 1.0 < v <= r as real
  {
    if v >= 0.0 then v.Floor else -((-v).Floor)
  }

  /** A truncated value lies between any two integers that enclose it. */
  lemma TruncBetween(v: real, lo: int, hi: int)
    requires lo as real <= v <= hi as real
    ensures lo <= Trunc(v) <= hi
  {
  }

  /** The cast keeps order, so edges computed from ordered values stay ordered. */
  lemma TruncMonotone(a: real, b: real)
    requires a <= b
    ensures Trunc(a) <= Trunc(b)
  {
  }

  /** The least integer not below b: where a loop `for (int i = ...; i < b; i++)` stops. */
  function Ceil(b: real): (r: int)
    ensures r as real - 1.0 < b <= r as real
  {
    -((-b).Floor)
  }

  lemma BelowCeil(i: int, b: real)
    ensures (i as real) < b <==> i < Ceil(b)
  {
  }

  /** Java's int division by a positive divisor: the quotient is truncated toward zero. */
  function JavaDiv(a: int, d: int): (q: int)
    requires d > 0
    ensures a >= 0 ==> q >= 0 && q * d <= a < q * d + d
    ensures a < 0 ==> q <= 0 && q * d - d < a <= q * d
  {
    if a >= 0 then a / d else -((-a) / d)
  }
}
