/**
 * Decimal index strings. Choice widgets record an option by its position,
 * written with `index.toString()`, and lodash's `_.get(array, [key])` reads
 * a key back as an array index only when it is a canonical decimal numeral.
 */
module Decimal {
  import opened Wrappers

  predicate IsDigit(c: char) {
    '0' <= c <= '9'
  }

  predicate AllDigits(s: string) {
    forall i :: 0 <= i < |s| ==> IsDigit(s[i])
  }

  function DigitValue(c: char): (d: nat)
    requires IsDigit(c)
    ensures d < 10
  {
    c as int - '0' as int
  }

  function DigitChar(d: nat): (c: char)
    requires d < 10
    ensures IsDigit(c) && DigitValue(c) == d
  {
    ('0' as int + d) as char
  }

  /** A numeral as JavaScript prints a non-negative integer: digits, no leading zero. */
  predicate Canonical(s: string) {
    |s| >= 1 && AllDigits(s) && (s[0] == '0' ==> |s| == 1)
  }

  /** The value of a string of decimal digits, most significant first. */
  function DigitsValue(s: string): nat
    requires AllDigits(s)
  {
    if s == [] then 0 else DigitsValue(s[..|s| - 1]) * 10 + DigitValue(s[|s| - 1])
  }

  /** `n.toString()` for a non-negative integer n. */
  function IndexString(n: nat): (s: string)
    ensures Canonical(s)
    ensures s[0] == '0' <==> n == 0
  {
    if n < 10 then [DigitChar(n)]
    else
      var s := IndexString(n / 10) + [DigitChar(n % 10)];
      assert s[0] == IndexString(n / 10)[0];
      s
  }

  /** The array index a property key denotes, if it denotes one. */
  function ParseIndex(s: string): (r: Option<nat>)
    ensures r.Some? <==> Canonical(s)
  {
    if Canonical(s) then Some(DigitsValue(s)) else None
  }

  /** Printing an index and reading it back gives the index. */
  lemma {:induction false} ParseIndexString(n: nat)
    ensures ParseIndex(IndexString(n)) == Some(n)
  {
    if n >= 10 {
      ParseIndexString(n / 10);
      var s := IndexString(n);
      assert s[..|s| - 1] == IndexString(n / 10);
      assert DigitValue(s[|s| - 1]) == n % 10;
      assert DigitsValue(s) == (n / 10) * 10 + n % 10;
    } else {
      assert DigitsValue(IndexString(n)) == DigitsValue([]) * 10 + n;
    }
  }

  /** Reading an index key and printing it back gives the key. */
  lemma {:induction false} IndexStringParse(s: string)
    requires ParseIndex(s).Some?
    ensures IndexString(ParseIndex(s).value) == s
  {
    if |s| > 1 {
      var t := s[..|s| - 1];
      assert Canonical(t) && t[0] == s[0];
      ValueOfLeadingNonZero(t);
      IndexStringParse(t);
      assert t + [s[|s| - 1]] == s;
    }
  }

  lemma {:induction false} ValueOfLeadingNonZero(t: string)
    requires |t| >= 1 && AllDigits(t) && t[0] != '0'
    ensures DigitsValue(t) >= 1
  {
    if |t| > 1 {
      ValueOfLeadingNonZero(t[..|t| - 1]);
    }
  }

  /** Distinct positions are recorded as distinct strings. */
  lemma IndexStringInjective(m: nat, n: nat)
    requires IndexString(m) == IndexString(n)
    ensures m == n
  {
    ParseIndexString(m);
    ParseIndexString(n);
  }
}
