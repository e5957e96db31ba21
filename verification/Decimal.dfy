/** Printing integers as Go's %d does, and reading them back. */
module Decimal {
  import opened Options

  function Digit(d: nat): char
    requires d < 10
  {
    "0123456789"[d]
  }

  predicate IsDigit(c: char) { '0' <= c <= '9' }

  function DigitValue(c: char): (d: nat)
    requires IsDigit(c)
    ensures d < 10 && Digit(d) == c
  {
    (c as int) - ('0' as int)
  }

  function Digits(n: nat): (s: string)
    ensures s != [] && forall c :: c in s ==> IsDigit(c)
  {
    if n < 10 then [Digit(n)] else Digits(n / 10) + [Digit(n % 10)]
  }

  /** Go's %d. */
  function Print(n: int): (s: string)
    ensures s != [] && forall c :: c in s ==> IsDigit(c) || c == '-'
  {
    if n < 0 then "-" + Digits(-n) else Digits(n)
  }

  function ReadDigits(s: string): Option<nat> {
    if s == [] || !IsDigit(s[|s| - 1]) then None
    else if |s| == 1 then Some(DigitValue(s[0]))
    else (match ReadDigits(s[..|s| - 1])
          case None => None
          case Some(n) => Some(10 * n + DigitValue(s[|s| - 1])))
  }

  function Read(s: string): Option<int> {
    if s != [] && s[0] == '-' then
      (match ReadDigits(s[1..])
       case None => None
       case Some(n) => var k: int := n; Some(-k))
    else ReadDigits(s)
  }

  lemma {:induction false} ReadDigitsBack(n: nat)
    ensures ReadDigits(Digits(n)) == Some(n)
  {
    if n >= 10 {
      ReadDigitsBack(n / 10);
      assert Digits(n)[..|Digits(n)| - 1] == Digits(n / 10);
      assert Digits(n)[|Digits(n)| - 1] == Digit(n % 10);
    }
  }

  /** Reading back a printed integer gives that integer. */
  lemma ReadBack(n: int)
    ensures Read(Print(n)) == Some(n)
  {
    hide Digits, ReadDigits;
    if n < 0 {
      ReadDigitsBack(-n);
      assert Print(n)[1..] == Digits(-n);
    } else {
      ReadDigitsBack(n);
      assert Digits(n)[0] in Digits(n);
    }
  }

  lemma PrintInjective(m: int, n: int)
    requires Print(m) == Print(n)
    ensures m == n
  {
    ReadBack(m);
    ReadBack(n);
  }
}
