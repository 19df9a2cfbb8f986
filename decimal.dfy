/** The decimal writing of a natural number, used for the counters the
    prefix allocator appends to names, and its inverse. */
module Decimal {

  /** The character of a single decimal digit. */
  function Digit(d: nat): (c: char)
    requires d < 10
    ensures '0' <= c <= '9'
  {
    (48 + d) as char
  }

  /** The value of a digit character; any other character reads as 0. */
  function DigitValue(c: char): (d: nat)
    ensures d < 10
  {
    if '0' <= c <= '9' then c as int - 48 else 0
  }

  predicate IsDigits(s: string) {
    forall i :: 0 <= i < |s| ==> '0' <= s[i] <= '9'
  }

  /** `'' + n` for a non-negative integer `n`: its decimal digits, most
      significant first, with no leading zeros. */
  function Str(n: nat): (s: string)
    ensures |s| >= 1 && IsDigits(s)
    ensures n >= 10 <==> |s| >= 2
    ensures s[0] == '0' <==> n == 0
    decreases n
  {
    if n < 10 then [Digit(n)] else Str(n / 10) + [Digit(n % 10)]
  }

  /** Reads a string of decimal digits back as a number. */
  function Parse(s: string): nat
    decreases |s|
  {
    if s == [] then 0 else 10 * Parse(s[..|s| - 1]) + DigitValue(s[|s| - 1])
  }

  /** Parsing undoes rendering. */
  lemma {:induction false} ParseStr(n: nat)
    ensures Parse(Str(n)) == n
  {
    if n >= 10 {
      var s := Str(n);
      assert s[..|s| - 1] == Str(n / 10);
      ParseStr(n / 10);
    }
  }

  /** Distinct numbers render as distinct strings, so every probing loop that
      counts upward tries a new candidate each time. */
  lemma StrInjective(a: nat, b: nat)
    ensures Str(a) == Str(b) <==> a == b
  {
    ParseStr(a);
    ParseStr(b);
  }
}
