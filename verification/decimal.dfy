/**
 * Number-to-string conversion for the non-negative integers used as box
 * ids (`"box" + boxId`), and its inverse on digit strings.
 */
module Decimal {

  predicate IsDigit(c: char)
  {
    '0' <= c <= '9'
  }

  predicate AllDigits(s: string)
  {
    forall i | 0 <= i < |s| :: IsDigit(s[i])
  }

  /** The character of a single decimal digit. */
  function DigitChar(d: nat): (c: char)
    requires d < 10
    ensures IsDigit(c) && (c as int) - ('0' as int) == d
  {
    "0123456789"[d]
  }

  /** The decimal spelling of `n`: non-empty, digits only, no leading zero. */
  function Show(n: nat): (s: string)
    ensures |s| >= 1 && AllDigits(s)
    ensures s[0] == '0' ==> n == 0
    decreases n
  {
    if n < 10 then [DigitChar(n)]
    else Show(n / 10) + [DigitChar(n % 10)]
  }

  /** The value of a digit string, most significant digit first. */
  function Value(s: string): nat
    requires AllDigits(s)
    decreases |s|
  {
    if s == [] then 0
    else Value(s[..|s| - 1]) * 10 + ((s[|s| - 1] as int) - ('0' as int))
  }

  /** Reading back a spelled number gives the number. */
  lemma {:induction false} ValueOfShow(n: nat)
    ensures Value(Show(n)) == n
    decreases n
  {
    if n >= 10 {
      ValueOfShow(n / 10);
      var s := Show(n);
      assert s[..|s| - 1] == Show(n / 10);
    }
  }

  /** Different numbers are spelled differently. */
  lemma ShowInjective(m: nat, n: nat)
    ensures Show(m) == Show(n) ==> m == n
  {
    ValueOfShow(m);
    ValueOfShow(n);
  }

  /**
   * A digit run followed by a non-digit is delimited: two such strings that
   * are equal agree on the digit run and on the rest.
   */
  lemma SplitAtNonDigit(s1: string, t1: string, s2: string, t2: string)
    requires AllDigits(s1) && AllDigits(s2)
    requires |t1| > 0 && !IsDigit(t1[0]) && |t2| > 0 && !IsDigit(t2[0])
    requires s1 + t1 == s2 + t2
    ensures s1 == s2 && t1 == t2
  {
    var u := s1 + t1;
    assert forall i | 0 <= i < |s1| :: IsDigit(u[i]);
    assert !IsDigit(u[|s1|]);
    assert forall i | 0 <= i < |s2| :: IsDigit(u[i]);
    assert !IsDigit(u[|s2|]);
    assert s1 == (s1 + t1)[..|s1|];
    assert t1 == (s1 + t1)[|s1|..];
  }
}
