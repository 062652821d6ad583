/** The bits of Python string formatting the planner relies on:
    `str()` of a non-negative integer and `':'`-separated fields. */
module Text {

  predicate IsDigit(c: char) {
    '0' <= c <= '9'
  }

  predicate AllDigits(s: string) {
    forall i :: 0 <= i < |s| ==> IsDigit(s[i])
  }

  function DecimalDigit(d: nat): (c: char)
    requires d < 10
    ensures IsDigit(c)
  {
    ('0' as int + d) as char
  }

  /** Decimal rendering of `n`, as `'{}'.format(n)` gives it. */
  function NatToString(n: nat): (s: string)
    ensures |s| >= 1
    ensures AllDigits(s)
    decreases n
  {
    if n < 10 then [DecimalDigit(n)] else NatToString(n / 10) + [DecimalDigit(n % 10)]
  }

  /** The number a string of decimal digits denotes (the inverse of NatToString). */
  function DigitsValue(s: string): nat
    requires AllDigits(s)
  {
    if s == [] then 0 else 10 * DigitsValue(s[..|s| - 1]) + (s[|s| - 1] as int - '0' as int)
  }

  lemma {:induction false} DigitsValueOfNatToString(n: nat)
    ensures DigitsValue(NatToString(n)) == n
    decreases n
  {
    if n >= 10 {
      var s := NatToString(n);
      assert s[..|s| - 1] == NatToString(n / 10);
      DigitsValueOfNatToString(n / 10);
    }
  }

  /** Distinct numbers render to distinct strings. */
  lemma NatToStringInjective(a: nat, b: nat)
    ensures NatToString(a) == NatToString(b) <==> a == b
  {
    if NatToString(a) == NatToString(b) {
      DigitsValueOfNatToString(a);
      DigitsValueOfNatToString(b);
    }
  }

  /** A string of digits contains no other character. */
  lemma DigitsExclude(c: char, s: string)
    requires !IsDigit(c)
    requires AllDigits(s)
    ensures c !in s
  {
  }

  /** Two fields separated by `sep`, as in `'{}:{}'.format(x, y)`. */
  function Joined(sep: char, x: string, y: string): string {
    x + [sep] + y
  }

  /** In `x + [c] + s` with `c` not in `x`, the first `c` sits right after `x`. */
  lemma FirstSeparator(c: char, x: string, s: string)
    requires c !in x
    ensures (x + [c] + s)[|x|] == c
    ensures forall i :: 0 <= i < |x| ==> (x + [c] + s)[i] != c
  {
  }

  /** Splitting at the first separator is unambiguous: when the field in front
      of the separator cannot contain it, the field and the rest are determined. */
  lemma SplitAtSeparator(c: char, x: string, s: string, y: string, t: string)
    requires c !in x && c !in y
    requires Joined(c, x, s) == Joined(c, y, t)
    ensures x == y && s == t
  {
    var u := x + [c] + s;
    FirstSeparator(c, x, s);
    FirstSeparator(c, y, t);
    assert |x| == |y|;
    assert x == u[..|x|];
    assert y == (y + [c] + t)[..|y|];
    assert s == u[|x| + 1..];
    assert t == (y + [c] + t)[|y| + 1..];
  }
}
