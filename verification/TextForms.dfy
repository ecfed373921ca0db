/** UUID texts and UTF-8 texts from the values they stand for: section 4 of RFC 9562 and section 3 of RFC 3629. */
module TextForms {
  import opened Text

  // ----- UUIDs -----

  function HexChar(v: int): char
    requires 0 <= v < 16
  {
    if v < 10 then '0' + v as char else 'a' + (v - 10) as char
  }

  predicate AreNibbles(v: seq<int>) {
    forall i :: 0 <= i < |v| ==> 0 <= v[i] < 16
  }

  function HexText(v: seq<int>): (s: string)
    requires AreNibbles(v)
    ensures |s| == |v| && forall i :: 0 <= i < |s| ==> s[i] == HexChar(v[i])
  {
    seq(|v|, i requires 0 <= i < |v| => HexChar(v[i]))
  }

  /** 32 hexadecimal digits in the groups 8-4-4-4-12. */
  function Unparse(v: seq<int>): string
    requires |v| == 32 && AreNibbles(v)
  {
    HexText(v[..8]) + "-" + HexText(v[8..12]) + "-" + HexText(v[12..16]) + "-" + HexText(v[16..20]) + "-" + HexText(v[20..])
  }

  function LowerCase(s: string): (t: string)
    ensures |t| == |s|
  {
    seq(|s|, i requires 0 <= i < |s| => if 'A' <= s[i] <= 'F' then s[i] + 32 as char else s[i])
  }

  function NibbleAt(s: string, i: int): (v: int)
    requires IsUuid(s) && 0 <= i < 32
    ensures 0 <= v < 16
  {
    var k := if i < 8 then i else if i < 12 then i + 1 else if i < 16 then i + 2 else if i < 20 then i + 3 else i + 4;
    assert IsHex(s[k]) by { assert !IsDash(k); }
    HexValue(s[k])
  }

  /** The digits of a UUID text. */
  function Nibbles(s: string): (v: seq<int>)
    requires IsUuid(s)
    ensures |v| == 32 && AreNibbles(v)
  {
    seq(32, i requires 0 <= i < 32 => NibbleAt(s, i))
  }

  lemma UnparsedIsUuid(v: seq<int>)
    requires |v| == 32 && AreNibbles(v)
    ensures IsLowerUuid(Unparse(v))
  {
    var s := Unparse(v);
    forall i | 0 <= i < 36
      ensures if IsDash(i) then s[i] == '-' else IsHex(s[i]) && !('A' <= s[i] <= 'F')
    {
    }
  }

  lemma NibblesUnparsed(s: string)
    requires IsLowerUuid(s)
    ensures Unparse(Nibbles(s)) == s
  {
    var t := Unparse(Nibbles(s));
    forall i | 0 <= i < 36
      ensures t[i] == s[i]
    {
      if !IsDash(i) {
        assert HexChar(HexValue(s[i])) == s[i];
      }
    }
  }

  /** The lower-case texts are the printed values, and a text of either case is one of them in lower case. */
  lemma UuidTextsExactly(s: string)
    ensures IsLowerUuid(s) <==> exists v: seq<int> :: |v| == 32 && AreNibbles(v) && s == Unparse(v)
    ensures IsUuid(s) <==> IsLowerUuid(LowerCase(s))
  {
    if IsLowerUuid(s) {
      NibblesUnparsed(s);
    }
    if v: seq<int> :| |v| == 32 && AreNibbles(v) && s == Unparse(v) {
      UnparsedIsUuid(v);
    }
    CaseDoesNotMatter(s);
  }

  lemma CaseDoesNotMatter(s: string)
    ensures IsUuid(s) <==> IsLowerUuid(LowerCase(s))
  {
    var t := LowerCase(s);
    if |s| == 36 {
      forall i | 0 <= i < 36
        ensures IsHex(s[i]) <==> IsHex(t[i]) && !('A' <= t[i] <= 'F')
        ensures s[i] == '-' <==> t[i] == '-'
      {
      }
    }
  }

  /** Two texts have one value exactly if they are the same in lower case. */
  lemma SameUuidExactly(a: string, b: string)
    requires IsUuid(a) && IsUuid(b)
    ensures SameUuid(a, b) <==> LowerCase(a) == LowerCase(b)
  {
    var x, y := LowerCase(a), LowerCase(b);
    forall i | 0 <= i < 36 && !IsDash(i)
      ensures HexValue(a[i]) == HexValue(b[i]) <==> x[i] == y[i]
    {
      assert HexChar(HexValue(a[i])) == x[i] && HexChar(HexValue(b[i])) == y[i];
    }
    if SameUuid(a, b) {
      assert forall i :: 0 <= i < 36 ==> x[i] == y[i];
    }
  }

  // ----- UTF-8 -----

  predicate IsScalar(c: int) {
    0 <= c <= 0x10FFFF && !(0xD800 <= c <= 0xDFFF)
  }

  /** The UTF-8 form of a Unicode scalar value. */
  function Encode(c: int): string
    requires IsScalar(c)
  {
    if c < 0x80 then [c as char]
    else if c < 0x800 then [(0xC0 + c / 0x40) as char, (0x80 + c % 0x40) as char]
    else if c < 0x1_0000 then
      [(0xE0 + c / 0x1000) as char, (0x80 + c / 0x40 % 0x40) as char, (0x80 + c % 0x40) as char]
    else
      [(0xF0 + c / 0x4_0000) as char, (0x80 + c / 0x1000 % 0x40) as char, (0x80 + c / 0x40 % 0x40) as char,
       (0x80 + c % 0x40) as char]
  }

  predicate AreScalars(cs: seq<int>) {
    forall i :: 0 <= i < |cs| ==> IsScalar(cs[i])
  }

  function EncodeAll(cs: seq<int>): string
    requires AreScalars(cs)
  {
    if cs == [] then "" else Encode(cs[0]) + EncodeAll(cs[1..])
  }

  lemma ThreeMore(c: int, rest: string)
    requires IsScalar(c) && 0x800 <= c < 0x1_0000 && IsUtf8(rest)
    ensures IsUtf8(Encode(c) + rest)
  {
    FourDigits(c);
    ThreeBytesMore(c, c / 0x1000, c / 0x40 % 0x40, c % 0x40, rest);
  }

  lemma ThreeBytesMore(c: int, x: int, y: int, z: int, rest: string)
    requires IsScalar(c) && 0x800 <= c && IsUtf8(rest)
    requires 0 <= x < 0x10 && 0 <= y < 0x40 && 0 <= z < 0x40 && c == x * 0x1000 + y * 0x40 + z
    ensures IsUtf8([(0xE0 + x) as char, (0x80 + y) as char, (0x80 + z) as char] + rest)
  {
    var s := [(0xE0 + x) as char, (0x80 + y) as char, (0x80 + z) as char] + rest;
    assert s[3..] == rest;
  }

  /** Four digits of a number to the base 64. */
  lemma FourDigits(c: int)
    requires 0 <= c
    ensures c == c / 0x4_0000 * 0x4_0000 + c / 0x1000 % 0x40 * 0x1000 + c / 0x40 % 0x40 * 0x40 + c % 0x40
  {
    var high := c / 0x40;
    var top := c / 0x1000;
    assert c == high * 0x40 + c % 0x40;
    assert top == high / 0x40 && high == top * 0x40 + high % 0x40;
    assert c / 0x4_0000 == top / 0x40 && top == top / 0x40 * 0x40 + top % 0x40;
  }

  lemma FourMore(c: int, rest: string)
    requires IsScalar(c) && 0x1_0000 <= c && IsUtf8(rest)
    ensures IsUtf8(Encode(c) + rest)
  {
    var w, x, y, z := c / 0x4_0000, c / 0x1000 % 0x40, c / 0x40 % 0x40, c % 0x40;
    FourDigits(c);
    FourBytesMore(c, w, x, y, z, rest);
  }

  lemma FourBytesMore(c: int, w: int, x: int, y: int, z: int, rest: string)
    requires IsScalar(c) && 0x1_0000 <= c && IsUtf8(rest)
    requires 0 <= w <= 4 && 0 <= x < 0x40 && 0 <= y < 0x40 && 0 <= z < 0x40
    requires c == w * 0x4_0000 + x * 0x1000 + y * 0x40 + z
    ensures IsUtf8([(0xF0 + w) as char, (0x80 + x) as char, (0x80 + y) as char, (0x80 + z) as char] + rest)
  {
    var s := [(0xF0 + w) as char, (0x80 + x) as char, (0x80 + y) as char, (0x80 + z) as char] + rest;
    assert s[4..] == rest;
  }

  lemma EncodedFirst(c: int, rest: string)
    requires IsScalar(c) && IsUtf8(rest)
    ensures IsUtf8(Encode(c) + rest)
  {
    if c < 0x800 {
      var s := Encode(c) + rest;
      assert s[|Encode(c)|..] == rest;
    } else if c < 0x1_0000 {
      ThreeMore(c, rest);
    } else {
      FourMore(c, rest);
    }
  }

  lemma {:induction false} EncodedIsUtf8(cs: seq<int>)
    requires AreScalars(cs)
    ensures IsUtf8(EncodeAll(cs))
  {
    if cs != [] {
      EncodedIsUtf8(cs[1..]);
      EncodedFirst(cs[0], EncodeAll(cs[1..]));
    }
  }

  lemma Digits64(x: int, y: int)
    requires 0 <= y < 0x40
    ensures (x * 0x40 + y) / 0x40 == x && (x * 0x40 + y) % 0x40 == y
  {
  }

  lemma TwoBytes(s: string) returns (c: int)
    requires |s| >= 2 && 0xC2 <= s[0] as int <= 0xDF && IsContinuation(s[1])
    ensures 0x80 <= c < 0x800 && Encode(c) == s[..2]
  {
    c := (s[0] as int - 0xC0) * 0x40 + (s[1] as int - 0x80);
    Digits64(s[0] as int - 0xC0, s[1] as int - 0x80);
  }

  lemma ThreeBytes(s: string) returns (c: int)
    requires |s| >= 3 && 0xE0 <= s[0] as int <= 0xEF && IsContinuation(s[1]) && IsContinuation(s[2])
    ensures c == (s[0] as int - 0xE0) * 0x1000 + (s[1] as int - 0x80) * 0x40 + (s[2] as int - 0x80)
    ensures 0x800 <= c && IsScalar(c) ==> Encode(c) == s[..3]
  {
    var x, y, z := s[0] as int - 0xE0, s[1] as int - 0x80, s[2] as int - 0x80;
    c := x * 0x1000 + y * 0x40 + z;
    var high := x * 0x40 + y;
    Digits64(x, y);
    Digits64(high, z);
    assert c == high * 0x40 + z && c / 0x1000 == x;
  }

  lemma FourBytes(s: string) returns (c: int)
    requires |s| >= 4 && 0xF0 <= s[0] as int <= 0xF4
    requires IsContinuation(s[1]) && IsContinuation(s[2]) && IsContinuation(s[3])
    ensures c == (s[0] as int - 0xF0) * 0x40000 + (s[1] as int - 0x80) * 0x1000 + (s[2] as int - 0x80) * 0x40 + (s[3] as int - 0x80)
    ensures 0x1_0000 <= c && IsScalar(c) ==> Encode(c) == s[..4]
  {
    var w, x, y, z := s[0] as int - 0xF0, s[1] as int - 0x80, s[2] as int - 0x80, s[3] as int - 0x80;
    c := w * 0x4_0000 + x * 0x1000 + y * 0x40 + z;
    var top := w * 0x40 + x;
    var high := top * 0x40 + y;
    Digits64(w, x);
    Digits64(top, y);
    Digits64(high, z);
    assert c == high * 0x40 + z && c / 0x1000 == top && c / 0x4_0000 == w;
  }

  lemma FirstScalar(s: string) returns (c: int)
    requires IsUtf8(s) && s != ""
    ensures IsScalar(c) && Encode(c) <= s && IsUtf8(s[|Encode(c)|..])
  {
    if s[0] as int < 0x80 {
      c := s[0] as int;
      assert Encode(c) == s[..1];
    } else if s[0] as int <= 0xDF {
      c := TwoBytes(s);
    } else if s[0] as int <= 0xEF {
      c := ThreeBytes(s);
    } else {
      c := FourBytes(s);
    }
  }

  lemma EncodedCons(c: int, rest: seq<int>)
    requires IsScalar(c) && AreScalars(rest)
    ensures AreScalars([c] + rest) && EncodeAll([c] + rest) == Encode(c) + EncodeAll(rest)
  {
    assert ([c] + rest)[1..] == rest;
  }

  lemma {:induction false} Scalars(s: string) returns (cs: seq<int>)
    requires IsUtf8(s)
    ensures AreScalars(cs) && EncodeAll(cs) == s
    decreases |s|
  {
    cs := [];
    if s != "" {
      var c := FirstScalar(s);
      var rest := Scalars(s[|Encode(c)|..]);
      cs := [c] + rest;
      EncodedCons(c, rest);
      assert s == Encode(c) + s[|Encode(c)|..];
    }
  }

  /** Well-formed is exactly what encodes some scalar values. */
  lemma Utf8Exactly(s: string)
    ensures IsUtf8(s) <==> exists cs :: AreScalars(cs) && EncodeAll(cs) == s
  {
    if IsUtf8(s) {
      var cs := Scalars(s);
    }
    if cs :| AreScalars(cs) && EncodeAll(cs) == s {
      EncodedIsUtf8(cs);
    }
  }
}
