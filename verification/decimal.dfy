/**
 * Decimal text of integers, as java.lang.Integer.toString and string
 * concatenation of an int produce it, with its inverse. Cache keys are built
 * by joining such texts with a separator; the lemmas here show that the
 * joined text still determines the numbers.
 */
module Decimal {

  predicate IsDigit(c: char) {
    '0' <= c <= '9'
  }

  predicate AllDigits(s: string) {
    forall k :: 0 <= k < |s| ==> IsDigit(s[k])
  }

  /** The character for the decimal digit d. */
  function DigitChar(d: nat): (c: char)
    requires d < 10
    ensures IsDigit(c) && (c as int) - ('0' as int) == d
  {
    (('0' as int) + d) as char
  }

  function DigitValue(c: char): (d: nat)
    requires IsDigit(c)
    ensures d < 10 && DigitChar(d) == c
  {
    (c as int) - ('0' as int)
  }

  /** Decimal text of n, without leading zeros. */
  function NatToString(n: nat): (s: string)
    ensures |s| > 0 && AllDigits(s)
    ensures |s| > 1 ==> s[0] != '0'
  {
    if n < 10 then [DigitChar(n)] else NatToString(n / 10) + [DigitChar(n % 10)]
  }

  /** Value of a non-empty string of decimal digits. */
  function ParseNat(s: string): nat
    requires |s| > 0 && AllDigits(s)
  {
    if |s| == 1 then DigitValue(s[0])
    else 10 * ParseNat(s[..|s| - 1]) + DigitValue(s[|s| - 1])
  }

  lemma {:induction false} ParseNatToString(n: nat)
    ensures ParseNat(NatToString(n)) == n
  {
    if n >= 10 {
      var s := NatToString(n);
      assert s[..|s| - 1] == NatToString(n / 10);
      ParseNatToString(n / 10);
    }
  }

  /** Decimal text of i: a minus sign before the digits of |i| when i is negative. */
  function IntToString(i: int): (s: string)
    ensures |s| > 0
    ensures forall k :: 0 <= k < |s| ==> IsDigit(s[k]) || (k == 0 && s[k] == '-')
  {
    if i < 0 then "-" + NatToString(-i) else NatToString(i)
  }

  /** Value of a decimal text with an optional leading minus sign. */
  function ParseInt(s: string): int
    requires |s| > 0 && AllDigits(s[1..]) && (s[0] == '-' ==> |s| > 1)
    requires s[0] != '-' ==> IsDigit(s[0])
  {
    if s[0] == '-' then -(ParseNat(s[1..]) as int) else ParseNat(s)
  }

  lemma ParseIntToString(i: int)
    ensures var s := IntToString(i); |s| > 0 && AllDigits(s[1..]) && (s[0] == '-' ==> |s| > 1) && (s[0] != '-' ==> IsDigit(s[0]))
    ensures ParseInt(IntToString(i)) == i
  {
    var s := IntToString(i);
    if i < 0 {
      assert s[1..] == NatToString(-i);
      ParseNatToString(-i);
    } else {
      ParseNatToString(i);
    }
  }

  /** Distinct integers have distinct texts. */
  lemma IntToStringInjective(a: int, b: int)
    requires IntToString(a) == IntToString(b)
    ensures a == b
  {
    ParseIntToString(a);
    ParseIntToString(b);
  }

  /** The text of an integer holds neither of the separators used in cache keys. */
  lemma IntToStringHasNoSeparator(i: int)
    ensures ' ' !in IntToString(i) && ':' !in IntToString(i) && '(' !in IntToString(i) && ')' !in IntToString(i)
  {
  }

  /** In a + [c] + b with c not in a, the first c stands at index |a|. */
  lemma FirstSeparatorAt(a: string, b: string, c: char)
    requires c !in a
    ensures (a + [c] + b)[|a|] == c
    ensures forall k :: 0 <= k < |a| ==> (a + [c] + b)[k] != c
  {
    forall k | 0 <= k < |a| ensures (a + [c] + b)[k] != c {
      assert (a + [c] + b)[k] == a[k];
    }
  }

  /**
   * Splitting at the first separator: when the left parts do not contain the
   * separator c, a1 + [c] + b1 == a2 + [c] + b2 determines both parts.
   */
  lemma SplitAtSeparator(a1: string, b1: string, a2: string, b2: string, c: char)
    requires c !in a1 && c !in a2
    requires a1 + [c] + b1 == a2 + [c] + b2
    ensures a1 == a2 && b1 == b2
  {
    var s := a1 + [c] + b1;
    FirstSeparatorAt(a1, b1, c);
    FirstSeparatorAt(a2, b2, c);
    assert s[|a1|] == c && s[|a2|] == c;
    assert a1 == s[..|a1|] == a2;
    assert b1 == s[|a1| + 1..] == b2;
  }

  /**
   * Splitting at the last separator: when the right parts do not contain the
   * separator c, a1 + [c] + b1 == a2 + [c] + b2 determines both parts.
   */
  lemma SplitAtLastSeparator(a1: string, b1: string, a2: string, b2: string, c: char)
    requires c !in b1 && c !in b2
    requires a1 + [c] + b1 == a2 + [c] + b2
    ensures a1 == a2 && b1 == b2
  {
    var s := a1 + [c] + b1;
    assert s[|a1|] == c && s[|a2|] == c;
    assert |a1| == |a2|;
    assert a1 == s[..|a1|] == a2;
    assert b1 == s[|a1| + 1..] == b2;
  }
}
