/** Decimal rendering of natural numbers, as a template literal `${n}` renders an
    integral JavaScript number, and the reading back of such a rendering. */
module Decimal {

  predicate IsDigitChar(c: char) { '0' <= c <= '9' }

  predicate AllDigits(s: string) { forall k :: 0 <= k < |s| ==> IsDigitChar(s[k]) }

  function DigitChar(d: nat): (c: char)
    requires d < 10
    ensures IsDigitChar(c) && (c as int) - ('0' as int) == d
  {
    (('0' as int) + d) as char
  }

  /** The canonical decimal text of `n`: at least one digit, and no leading zero
      unless `n` is zero itself. */
  function FromNat(n: nat): (s: string)
    ensures |s| >= 1 && AllDigits(s)
    ensures s[0] == '0' <==> n == 0
    ensures s[0] == '0' ==> |s| == 1
  {
    if n < 10 then [DigitChar(n)] else FromNat(n / 10) + [DigitChar(n % 10)]
  }

  /** The number a string of decimal digits denotes. */
  function Value(s: string): nat
    requires AllDigits(s)
  {
    if s == [] then 0 else Value(s[..|s| - 1]) * 10 + ((s[|s| - 1] as int) - ('0' as int))
  }

  /** Reading the rendering of `n` gives `n` back. */
  lemma {:induction false} ValueOfFromNat(n: nat)
    ensures Value(FromNat(n)) == n
  {
    var s := FromNat(n);
    if n >= 10 {
      ValueOfFromNat(n / 10);
      assert s[..|s| - 1] == FromNat(n / 10);
    }
  }

  /** Distinct numbers have distinct renderings. */
  lemma FromNatInjective(m: nat, n: nat)
    requires FromNat(m) == FromNat(n)
    ensures m == n
  {
    ValueOfFromNat(m);
    ValueOfFromNat(n);
  }

  /** Only strings of zeros denote zero. */
  lemma {:induction false} ValueZero(s: string)
    requires AllDigits(s) && Value(s) == 0
    ensures forall k :: 0 <= k < |s| ==> s[k] == '0'
  {
    if s != [] {
      ValueZero(s[..|s| - 1]);
      assert forall k :: 0 <= k < |s| - 1 ==> s[k] == s[..|s| - 1][k];
    }
  }

  /** The canonical text of a number is unique: any non-empty digit string without
      a leading zero (other than "0" itself) that denotes `n` is `FromNat(n)`. */
  lemma {:induction false} CanonicalIsFromNat(s: string, n: nat)
    requires |s| >= 1 && AllDigits(s) && Value(s) == n
    requires s[0] == '0' ==> |s| == 1
    ensures s == FromNat(n)
  {
    var init, last := s[..|s| - 1], s[|s| - 1];
    var d := (last as int) - ('0' as int);
    if |s| == 1 {
      assert init == [];
      assert s == [DigitChar(n)];
    } else {
      assert init[0] == s[0] != '0';
      if Value(init) == 0 {
        ValueZero(init);
      }
      assert n == Value(init) * 10 + d && 0 <= d < 10;
      assert n / 10 == Value(init) && n % 10 == d;
      CanonicalIsFromNat(init, n / 10);
      assert s == init + [last];
    }
  }
}
