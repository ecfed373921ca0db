/**
 * WHERE called_number LIKE '+%' OR printf('%d', called_number) = called_number
 */
module PhoneNumbers {
  import opened Text
  import opened Decimal

  const INT64_MAX := 0x7FFF_FFFF_FFFF_FFFF
  const INT64_MIN := -0x8000_0000_0000_0000

  predicate IsSpace(c: char) {
    c == ' ' || '\t' <= c <= '\r'
  }

  function SkipSpaces(s: string): string {
    if s != "" && IsSpace(s[0]) then SkipSpaces(s[1..]) else s
  }

  function DigitPrefix(s: string): (d: string)
    ensures AllDigits(d)
  {
    if s != "" && IsDigit(s[0]) then [s[0]] + DigitPrefix(s[1..]) else ""
  }

  /** SQLite's reading of a text as a 64-bit integer: spaces, a sign, digits; clamped, the rest ignored. */
  function ToInteger(s: string): (v: int)
    ensures INT64_MIN <= v <= INT64_MAX
  {
    var t := SkipSpaces(s);
    var negative := t != "" && t[0] == '-';
    var digits := DigitPrefix(if t != "" && (t[0] == '-' || t[0] == '+') then t[1..] else t);
    var n: int := Value(digits);
    if negative then (if -n < INT64_MIN then INT64_MIN else -n)
    else (if n > INT64_MAX then INT64_MAX else n)
  }

  /** The filter of both phone number queries; a NULL number never passes. */
  predicate IsListed(number: Option<string>) {
    number.Some? && ((number.value != "" && number.value[0] == '+') || PrintInt(ToInteger(number.value)) == number.value)
  }

  lemma {:induction false} DigitPrefixOfDigits(s: string)
    requires AllDigits(s)
    ensures DigitPrefix(s) == s
  {
    if s != "" {
      DigitPrefixOfDigits(s[1..]);
      assert s == [s[0]] + s[1..];
    }
  }

  /** Reading back a printed 64-bit integer. */
  lemma ToIntegerOfPrint(v: int)
    requires INT64_MIN <= v <= INT64_MAX
    ensures ToInteger(PrintInt(v)) == v
  {
    var n := if v < 0 then -v else v;
    DigitPrefixOfDigits(Print(n));
    ValueOfPrint(n);
    if v < 0 {
      assert ("-" + Print(n))[1..] == Print(n);
    }
  }

  /** What the filter accepts: a leading plus, or the canonical decimal of a 64-bit integer. */
  lemma ListedExactly(number: string)
    ensures IsListed(Some(number)) <==>
            "+" <= number ||
            exists v :: -9_223_372_036_854_775_808 <= v <= 9_223_372_036_854_775_807 && number == PrintInt(v)
  {
    if v :| INT64_MIN <= v <= INT64_MAX && number == PrintInt(v) {
      ToIntegerOfPrint(v);
    }
    assert "+" <= number <==> number != "" && number[0] == '+';
  }

  /** A digits-only number is listed exactly if it has no superfluous zero and is at most 2^63 - 1. */
  lemma DigitsListedExactly(number: string)
    requires number != "" && AllDigits(number)
    ensures IsListed(Some(number)) <==> IsCanonical(number) && Value(number) <= 9_223_372_036_854_775_807
    ensures IsListed(Some(number)) <==> exists n: nat :: n <= INT64_MAX && number == Print(n)
  {
    if IsListed(Some(number)) {
      ListedExactly(number);
      var v :| INT64_MIN <= v <= INT64_MAX && number == PrintInt(v);
      assert v >= 0;
      ValueOfPrint(v);
      CanonicalPrint(v);
    } else {
      forall n: nat | n <= INT64_MAX
        ensures number != Print(n)
      {
        ToIntegerOfPrint(n);
      }
      if IsCanonical(number) {
        PrintOfValue(number);
      }
    }
  }

  lemma {:induction false} CanonicalPrint(n: nat)
    ensures IsCanonical(Print(n))
  {
    if n >= 10 {
      CanonicalPrint(n / 10);
    }
  }

  /** A number with a minus sign is listed exactly if the rest is canonical, not zero, and at most 2^63. */
  lemma NegativeListedExactly(rest: string)
    ensures IsListed(Some("-" + rest)) <==>
            IsCanonical(rest) && 0 < Value(rest) <= 9_223_372_036_854_775_808
  {
    var number := "-" + rest;
    if IsListed(Some(number)) {
      NegativeIsPrinted(number);
      var v :| INT64_MIN <= v <= INT64_MAX && number == PrintInt(v);
      NegativeIsCanonical(rest, v);
    } else if IsCanonical(rest) && 0 < Value(rest) <= 9_223_372_036_854_775_808 {
      CanonicalIsPrinted(rest);
    }
  }

  lemma NegativeIsPrinted(number: string)
    requires IsListed(Some(number)) && number != "" && number[0] == '-'
    ensures exists v :: INT64_MIN <= v <= INT64_MAX && number == PrintInt(v)
  {
    ListedExactly(number);
  }

  lemma CanonicalIsPrinted(rest: string)
    requires IsCanonical(rest) && 0 < Value(rest) <= 9_223_372_036_854_775_808
    ensures IsListed(Some("-" + rest))
  {
    PrintOfValue(rest);
    var v: int := 0 - Value(rest);
    assert "-" + rest == PrintInt(v);
    ListedExactly(PrintInt(v));
  }

  lemma NegativeIsCanonical(rest: string, v: int)
    requires "-" + rest == PrintInt(v)
    ensures v < 0 && IsCanonical(rest) && Value(rest) == -v
  {
    SignOfPrint(v);
    assert ("-" + rest)[0] == '-' && ("-" + rest)[1..] == rest;
    ValueOfPrint(-v);
    CanonicalPrint(-v);
  }

  lemma SignOfPrint(v: int)
    ensures PrintInt(v)[0] == '-' <==> v < 0
    ensures v < 0 ==> PrintInt(v)[1..] == Print(-v)
  {
    assert v >= 0 ==> IsDigit(PrintInt(v)[0]);
  }
}
