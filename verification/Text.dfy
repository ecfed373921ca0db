/** C strings as the program uses them: one `char` is one byte, the terminating NUL is implicit. */
module Text {

  datatype Option<+T> = None | Some(value: T)

  predicate IsDigit(c: char) {
    '0' <= c <= '9'
  }

  predicate IsHex(c: char) {
    IsDigit(c) || 'a' <= c <= 'f' || 'A' <= c <= 'F'
  }

  /** What `uuid_parse` accepts: the 36-character text form of section 4 of RFC 9562, either case. */
  predicate IsUuid(s: string) {
    |s| == 36 &&
    forall i :: 0 <= i < 36 ==> if IsDash(i) then s[i] == '-' else IsHex(s[i])
  }

  function HexValue(c: char): (v: nat)
    requires IsHex(c)
    ensures v < 16
  {
    if IsDigit(c) then (c - '0') as int else if 'a' <= c <= 'f' then 10 + (c - 'a') as int else 10 + (c - 'A') as int
  }

  predicate IsDash(i: nat) {
    i == 8 || i == 13 || i == 18 || i == 23
  }

  /** Two texts of one 128-bit value. */
  predicate SameUuid(a: string, b: string) {
    IsUuid(a) && IsUuid(b) && forall i :: 0 <= i < 36 && !IsDash(i) ==> HexValue(a[i]) == HexValue(b[i])
  }

  /** One value, two texts: they differ in the case of some letter. */
  predicate Recased(a: string, b: string) {
    SameUuid(a, b) && a != b
  }

  /** What `uuid_unparse_lower` prints. */
  predicate IsLowerUuid(s: string) {
    IsUuid(s) && forall i :: 0 <= i < 36 ==> !('A' <= s[i] <= 'F')
  }

  /** In lower case a value has one text only. */
  lemma LowerTextIsUnique(a: string, b: string)
    requires IsLowerUuid(a) && IsLowerUuid(b)
    ensures SameUuid(a, b) <==> a == b
  {
    if SameUuid(a, b) {
      forall i | 0 <= i < 36
        ensures a[i] == b[i]
      {
        if !IsDash(i) {
          assert HexValue(a[i]) == HexValue(b[i]);
        }
      }
    }
  }

  /** `strncmp(a, b, n) == 0`: equal up to the first NUL or the first n bytes. */
  predicate StrncmpEqual(a: string, b: string, n: nat) {
    if n == 0 then true
    else if a == "" || b == "" then a == "" && b == ""
    else a[0] == b[0] && StrncmpEqual(a[1..], b[1..], n - 1)
  }

  /** Bounded comparison up to the length of `b` is a prefix test. */
  lemma {:induction false} StrncmpIsPrefix(a: string, b: string)
    ensures StrncmpEqual(a, b, |b|) <==> b <= a
  {
    if b == "" {
    } else if a == "" {
    } else {
      StrncmpIsPrefix(a[1..], b[1..]);
      assert b <= a <==> a[0] == b[0] && b[1..] <= a[1..] by {
        if a[0] == b[0] && b[1..] <= a[1..] {
          assert a == [a[0]] + a[1..] && b == [b[0]] + b[1..];
        }
      }
    }
  }

  /** The bytes the JSON library accepts as a string: well-formed UTF-8 (no overlong form, no surrogate). */
  predicate IsUtf8(s: string) {
    s == "" ||
    (s[0] as int < 0x80 && IsUtf8(s[1..])) ||
    (|s| >= 2 && 0xC2 <= s[0] as int <= 0xDF && IsContinuation(s[1]) && IsUtf8(s[2..])) ||
    (|s| >= 3 && 0xE0 <= s[0] as int <= 0xEF && IsContinuation(s[1]) && IsContinuation(s[2]) &&
     var c := (s[0] as int - 0xE0) * 0x1000 + (s[1] as int - 0x80) * 0x40 + (s[2] as int - 0x80);
     c >= 0x800 && !(0xD800 <= c <= 0xDFFF) && IsUtf8(s[3..])) ||
    (|s| >= 4 && 0xF0 <= s[0] as int <= 0xF4 && IsContinuation(s[1]) && IsContinuation(s[2]) && IsContinuation(s[3]) &&
     var c := (s[0] as int - 0xF0) * 0x40000 + (s[1] as int - 0x80) * 0x1000 + (s[2] as int - 0x80) * 0x40 + (s[3] as int - 0x80);
     0x10000 <= c <= 0x10FFFF && IsUtf8(s[4..]))
  }

  lemma {:induction false} AsciiIsUtf8(s: string)
    requires forall i :: 0 <= i < |s| ==> s[i] as int < 0x80
    ensures IsUtf8(s)
  {
    if s != "" {
      AsciiIsUtf8(s[1..]);
    }
  }

  predicate IsContinuation(c: char) {
    0x80 <= c as int <= 0xBF
  }

  /** Byte order of two strings (BINARY collation): strictly smaller. */
  predicate Less(a: string, b: string) {
    b != "" && (a == "" || a[0] < b[0] || (a[0] == b[0] && Less(a[1..], b[1..])))
  }

  predicate AtMost(a: string, b: string) {
    a == b || Less(a, b)
  }

  lemma {:induction false} LessIsTransitive(a: string, b: string, c: string)
    requires Less(a, b) && Less(b, c)
    ensures Less(a, c)
  {
    if a != "" && a[0] == b[0] == c[0] {
      LessIsTransitive(a[1..], b[1..], c[1..]);
    }
  }

  lemma {:induction false} LessIsStrictAndTotal(a: string, b: string)
    ensures !Less(a, a)
    ensures !(Less(a, b) && Less(b, a))
    ensures a == b || Less(a, b) || Less(b, a)
  {
    if a != "" {
      LessIsStrictAndTotal(a[1..], if b != "" then b[1..] else "");
    }
    if a != "" && b != "" && a[0] == b[0] {
      assert a == [a[0]] + a[1..] && b == [b[0]] + b[1..];
    }
  }

  /** A common prefix does not influence byte order. */
  lemma {:induction false} LessAfterCommonPrefix(p: string, a: string, b: string)
    ensures Less(p + a, p + b) <==> Less(a, b)
  {
    if p == "" {
      assert p + a == a && p + b == b;
    } else {
      LessAfterCommonPrefix(p[1..], a, b);
      assert (p + a)[1..] == p[1..] + a && (p + b)[1..] == p[1..] + b;
    }
  }

  /** Strings of one length that differ keep their order whatever follows them. */
  lemma {:induction false} LessDecidedByPrefix(p: string, q: string, a: string, b: string)
    requires |p| == |q| && p != q
    ensures Less(p + a, q + b) <==> Less(p, q)
  {
    assert p != "" && q != "";
    assert p == [p[0]] + p[1..] && q == [q[0]] + q[1..];
    assert (p + a)[0] == p[0] && (q + b)[0] == q[0];
    if p[0] == q[0] {
      LessDecidedByPrefix(p[1..], q[1..], a, b);
      assert (p + a)[1..] == p[1..] + a && (q + b)[1..] == q[1..] + b;
    }
  }
}
