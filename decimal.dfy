/** Decimal text of natural numbers: how `bigint.toString()` renders a timestamp and how
    the backing store reads a number attribute back. */
module Decimal {
  import opened Common

  predicate IsDigit(c: char)
  {
    '0' <= c <= '9'
  }

  predicate AllDigits(s: string)
  {
    forall i :: 0 <= i < |s| ==> IsDigit(s[i])
  }

  function DigitChar(d: nat): (c: char)
    requires d < 10
    ensures IsDigit(c) && DigitValue(c) == d
  {
    ('0' as int + d) as char
  }

  function DigitValue(c: char): nat
    requires IsDigit(c)
  {
    c as int - '0' as int
  }

  /** Base-10 rendering without sign or leading zeros. */
  function Render(n: nat): (s: string)
    ensures |s| > 0 && AllDigits(s)
    ensures |s| > 1 ==> s[0] != '0'
    decreases n
  {
    if n < 10 then [DigitChar(n)] else Render(n / 10) + [DigitChar(n % 10)]
  }

  /** The number a digit string denotes. */
  function Value(s: string): nat
    requires AllDigits(s)
  {
    if s == [] then 0 else Value(s[..|s| - 1]) * 10 + DigitValue(s[|s| - 1])
  }

  /** Reading an integer number attribute: a non-empty run of digits, or nothing. */
  function Parse(s: string): Option<nat>
  {
    if s != [] && AllDigits(s) then Some(Value(s)) else None
  }

  /** Rendering a natural number and reading it back gives the same number. */
  lemma {:induction false} ParseRender(n: nat)
    ensures Parse(Render(n)) == Some(n)
  {
    var s := Render(n);
    if n >= 10 {
      var p := Render(n / 10);
      ParseRender(n / 10);
      assert s[..|s| - 1] == p;
      assert Value(s) == Value(p) * 10 + n % 10;
    }
  }
}
