/** Decimal text of natural numbers, as printf and strtol-like readers use it. */
module Decimal {
  import opened Text

  function DigitChar(d: nat): char
    requires d < 10
  {
    '0' + d as char
  }

  function DigitValue(c: char): (d: nat)
    requires IsDigit(c)
    ensures d < 10 && DigitChar(d) == c
  {
    (c - '0') as int
  }

  predicate AllDigits(s: string) {
    forall i :: 0 <= i < |s| ==> IsDigit(s[i])
  }

  function Print(n: nat): (s: string)
    ensures s != "" && AllDigits(s)
    ensures s[0] == '0' ==> n == 0
    ensures n == 0 ==> s == "0"
  {
    if n < 10 then [DigitChar(n)] else Print(n / 10) + [DigitChar(n % 10)]
  }

  function Value(s: string): nat
    requires AllDigits(s)
  {
    if s == "" then 0 else Value(s[..|s| - 1]) * 10 + DigitValue(s[|s| - 1])
  }

  lemma {:induction false} ValueOfPrint(n: nat)
    ensures Value(Print(n)) == n
  {
    if n < 10 {
      assert [DigitChar(n)][..0] == "";
    } else {
      ValueOfPrint(n / 10);
      assert (Print(n / 10) + [DigitChar(n % 10)])[..|Print(n / 10)|] == Print(n / 10);
    }
  }

  /** No superfluous leading zero. */
  predicate IsCanonical(s: string) {
    s != "" && AllDigits(s) && (s[0] != '0' || |s| == 1)
  }

  lemma {:induction false} PrintOfValue(s: string)
    requires IsCanonical(s)
    ensures Print(Value(s)) == s
  {
    var init, last := s[..|s| - 1], DigitValue(s[|s| - 1]);
    assert s == init + [s[|s| - 1]];
    if init == "" {
      assert Value(s) == last;
    } else {
      PrintOfValue(init);
      if Value(init) == 0 {
        assert false;
      }
      assert Value(s) / 10 == Value(init) && Value(s) % 10 == last;
    }
  }

  lemma PrintIsInjective(m: nat, n: nat)
    requires Print(m) == Print(n)
    ensures m == n
  {
    ValueOfPrint(m);
    ValueOfPrint(n);
  }

  function PrintInt(v: int): string {
    if v < 0 then "-" + Print(-v) else Print(v)
  }
}
