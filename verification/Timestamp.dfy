/**
 * The event timestamp: a local broken-down time and the nanoseconds of the same clock reading, written into
 * a buffer of TIMESTAMP_LEN bytes. The nanoseconds are printed with a minimum of six digits, not nine.
 */
module Timestamp {
  import opened Text
  import opened Buffers
  import opened Decimal

  const TIMESTAMP_LEN := 40
  const FRACTION_WIDTH := 6

  /** A broken-down time; the month counts from 1, the second may be a leap second. */
  datatype Tm = Tm(year: int, month: nat, day: nat, hour: nat, minute: nat, second: nat)

  datatype Reading = Reading(tm: Tm, nsec: nat)

  /** `tm_year` is a 32-bit integer that counts from 1900. */
  predicate IsTm(tm: Tm) {
    && -0x8000_0000 + 1900 <= tm.year < 0x8000_0000 + 1900
    && 1 <= tm.month <= 12 && 1 <= tm.day <= 31 && tm.hour < 24 && tm.minute < 60 && tm.second <= 60
  }

  predicate IsReading(r: Reading) {
    IsTm(r.tm) && r.nsec < 1_000_000_000
  }

  /** Decimal digits, filled up with zeros on the left. */
  function Padded(n: nat, width: nat): (s: string)
    ensures |s| == (if |Print(n)| < width then width else |Print(n)|) && AllDigits(s)
  {
    seq(if |Print(n)| < width then width - |Print(n)| else 0, _ => '0') + Print(n)
  }

  /** Each field behind its separator. */
  function Join(seps: string, fields: seq<string>): string
    requires |fields| == |seps|
  {
    if fields == [] then "" else [seps[0]] + fields[0] + Join(seps[1..], fields[1..])
  }

  const SEPARATORS := "-- ::"

  /** The fields behind the year. */
  function Values(tm: Tm): seq<nat> {
    [tm.month, tm.day, tm.hour, tm.minute, tm.second]
  }

  function PaddedAll(values: seq<nat>): (fields: seq<string>)
    ensures |fields| == |values|
  {
    if values == [] then [] else [Padded(values[0], 2)] + PaddedAll(values[1..])
  }

  function Date(tm: Tm): string {
    PrintInt(tm.year) + Join(SEPARATORS, PaddedAll(Values(tm)))
  }

  function Stamp(r: Reading): string {
    Date(r.tm) + "." + Padded(r.nsec, FRACTION_WIDTH)
  }

  // ----- in the buffer -----

  /** strftime: all of the text and a NUL, or nothing that can be relied on. */
  method Strftime(dest: array<char>, max: nat, text: string)
    requires max <= dest.Length && NoNul(text)
    modifies dest
    ensures |text| < max ==> Str(dest[..]) == text
  {
    if |text| < max {
      forall i | 0 <= i <= |text| {
        dest[i] := if i < |text| then text[i] else NUL;
      }
      assert dest[..][..|text|] == text;
      StrIs(dest[..], text);
    }
  }

  /** snprintf: as much of the text as fits, and a NUL. */
  method Snprintf(dest: array<char>, size: nat, text: string)
    requires 0 < size <= dest.Length && NoNul(text)
    modifies dest
    ensures Str(dest[..]) == Take(text, size - 1)
    ensures dest[size..] == old(dest[size..])
  {
    var kept := Take(text, size - 1);
    forall i | 0 <= i <= |kept| {
      dest[i] := if i < |kept| then kept[i] else NUL;
    }
    assert dest[..][..|kept|] == kept;
    StrIs(dest[..], kept);
  }

  /** `event_timestamp`: neither buffer cuts anything off, and nothing is written behind the 40 bytes. */
  method EventTimestamp(dest: array<char>, now: Reading)
    requires IsReading(now) && dest.Length >= 40
    modifies dest
    ensures Str(dest[..]) == Stamp(now)
    ensures dest[40..] == old(dest[40..])
  {
    StampFits(now);
    DateShape(now.tm);
    var date := new char[TIMESTAMP_LEN];
    Strftime(date, TIMESTAMP_LEN, Date(now.tm));
    Snprintf(dest, TIMESTAMP_LEN, Str(date[..]) + "." + Padded(now.nsec, FRACTION_WIDTH));
  }

  // ----- length -----

  function Pow10(k: nat): (p: nat)
    ensures p > 0
  {
    if k == 0 then 1 else 10 * Pow10(k - 1)
  }

  /** A number below 10^w has at most w digits, one from 10^(w-1) on at least w. */
  lemma {:induction false} PrintLength(n: nat, w: nat)
    requires w > 0
    ensures n < Pow10(w) <==> |Print(n)| <= w
  {
    if w == 1 {
      assert Pow10(1) == 10 * Pow10(0);
    } else if n >= 10 {
      PrintLength(n / 10, w - 1);
    } else {
      assert Pow10(w) == 10 * Pow10(w - 1);
    }
  }

  lemma NineDigits(n: nat)
    ensures n < 1_000_000_000 <==> |Print(n)| <= 9
    ensures n < 10_000_000_000 <==> |Print(n)| <= 10
    ensures n < 100_000_000 <==> |Print(n)| <= 8
    ensures n < 100 <==> |Print(n)| <= 2
  {
    assert Pow10(4) == 10_000;
    assert Pow10(8) == 100_000_000;
    PrintLength(n, 2);
    PrintLength(n, 8);
    PrintLength(n, 9);
    PrintLength(n, 10);
  }

  /** Bytes that neither end the date nor the C string. */
  predicate Plain(s: string) {
    forall i :: 0 <= i < |s| ==> s[i] != '.' && s[i] != NUL
  }

  predicate AreTwoDigits(fields: seq<string>) {
    forall i :: 0 <= i < |fields| ==> |fields[i]| == 2 && AllDigits(fields[i])
  }

  lemma {:induction false} TwoDigitFields(values: seq<nat>)
    requires forall i :: 0 <= i < |values| ==> values[i] < 100
    ensures AreTwoDigits(PaddedAll(values))
  {
    if values != [] {
      NineDigits(values[0]);
      TwoDigitFields(values[1..]);
    }
  }

  lemma {:induction false} JoinShape(seps: string, fields: seq<string>)
    requires |seps| == |fields| && Plain(seps) && AreTwoDigits(fields)
    ensures |Join(seps, fields)| == 3 * |fields| && Plain(Join(seps, fields))
  {
    if fields != [] {
      assert AreTwoDigits(fields[1..]) && Plain(seps[1..]);
      JoinShape(seps[1..], fields[1..]);
    }
  }

  /** Behind the year come five fields of two digits, each behind one separator. */
  lemma DateShape(tm: Tm)
    requires IsTm(tm)
    ensures AreTwoDigits(PaddedAll(Values(tm)))
    ensures |Join(SEPARATORS, PaddedAll(Values(tm)))| == 15
    ensures |Date(tm)| <= 26 && Plain(Date(tm))
  {
    TwoDigitFields(Values(tm));
    JoinShape(SEPARATORS, PaddedAll(Values(tm)));
    NineDigits(if tm.year < 0 then -tm.year else tm.year);
    assert Plain(PrintInt(tm.year));
  }

  /** The text always fits the buffer: at most 36 bytes and the NUL. */
  lemma StampFits(r: Reading)
    requires IsReading(r)
    ensures |Stamp(r)| <= 36 && NoNul(Stamp(r))
  {
    NineDigits(r.nsec);
    DateShape(r.tm);
  }

  // ----- injectivity -----

  lemma {:induction false} ValueOfZeros(k: nat, s: string)
    requires AllDigits(s)
    ensures AllDigits(seq(k, _ => '0') + s) && Value(seq(k, _ => '0') + s) == Value(s)
    decreases |s|, k
  {
    var t := seq(k, _ => '0') + s;
    if s != "" {
      ValueOfZeros(k, s[..|s| - 1]);
      assert t[..|t| - 1] == seq(k, _ => '0') + s[..|s| - 1];
    } else if k > 0 {
      ValueOfZeros(k - 1, s);
      assert t[..|t| - 1] == seq(k - 1, _ => '0') + s;
    } else {
      assert t == s;
    }
  }

  /** Padding does not change the number. */
  lemma ValueOfPadded(n: nat, width: nat)
    ensures Value(Padded(n, width)) == n
  {
    ValueOfZeros(if |Print(n)| < width then width - |Print(n)| else 0, Print(n));
    ValueOfPrint(n);
  }

  /** Texts with a first '.' in the same role split the same way. */
  lemma {:induction false} SplitAtPoint(a: string, x: string, b: string, y: string)
    requires Plain(a) && Plain(b) && a + "." + x == b + "." + y
    ensures a == b && x == y
  {
    var t := a + "." + x;
    assert t[|a|] == '.' && t[|b|] == '.';
    assert |a| == |b|;
    assert a == t[..|a|] && b == t[..|b|] && x == t[|a| + 1..] && y == t[|b| + 1..];
  }

  lemma {:induction false} JoinIsInjective(seps: string, xs: seq<string>, ys: seq<string>)
    requires |seps| == |xs| == |ys| && AreTwoDigits(xs) && AreTwoDigits(ys)
    requires Join(seps, xs) == Join(seps, ys)
    ensures xs == ys
  {
    if xs != [] {
      var j := Join(seps, xs);
      assert xs[0] == j[1..3] && ys[0] == j[1..3];
      assert Join(seps[1..], xs[1..]) == j[3..] && Join(seps[1..], ys[1..]) == j[3..];
      JoinIsInjective(seps[1..], xs[1..], ys[1..]);
    }
  }

  lemma {:induction false} PaddedAllIsInjective(xs: seq<nat>, ys: seq<nat>)
    requires PaddedAll(xs) == PaddedAll(ys)
    ensures xs == ys
  {
    assert |xs| == |ys|;
    if xs != [] {
      ValueOfPadded(xs[0], 2);
      ValueOfPadded(ys[0], 2);
      assert PaddedAll(xs)[1..] == PaddedAll(ys)[1..];
      PaddedAllIsInjective(xs[1..], ys[1..]);
    }
  }

  lemma SignIsShown(n: int)
    ensures PrintInt(n)[0] == '-' <==> n < 0
  {
    assert n >= 0 ==> IsDigit(PrintInt(n)[0]);
  }

  lemma PrintIntIsInjective(m: int, n: int)
    requires PrintInt(m) == PrintInt(n)
    ensures m == n
  {
    if m >= 0 && n >= 0 {
      PrintIsInjective(m, n);
    } else {
      SignIsShown(m);
      SignIsShown(n);
      assert Print(-m) == PrintInt(m)[1..] && Print(-n) == PrintInt(n)[1..];
      PrintIsInjective(-m, -n);
    }
  }

  /** Two readings with one text are one reading. */
  lemma StampIsInjective(a: Reading, b: Reading)
    requires IsReading(a) && IsReading(b) && Stamp(a) == Stamp(b)
    ensures a == b
  {
    DateShape(a.tm);
    DateShape(b.tm);
    SplitAtPoint(Date(a.tm), Padded(a.nsec, FRACTION_WIDTH), Date(b.tm), Padded(b.nsec, FRACTION_WIDTH));
    ValueOfPadded(a.nsec, FRACTION_WIDTH);
    ValueOfPadded(b.nsec, FRACTION_WIDTH);
    DateIsInjective(a.tm, b.tm);
  }

  lemma DateIsInjective(a: Tm, b: Tm)
    requires IsTm(a) && IsTm(b) && Date(a) == Date(b)
    ensures a == b
  {
    DateShape(a);
    DateShape(b);
    var k := |Date(a)| - 15;
    assert PrintInt(a.year) == Date(a)[..k] && PrintInt(b.year) == Date(b)[..k];
    PrintIntIsInjective(a.year, b.year);
    assert Join(SEPARATORS, PaddedAll(Values(a))) == Date(a)[k..];
    assert Join(SEPARATORS, PaddedAll(Values(b))) == Date(b)[k..];
    JoinIsInjective(SEPARATORS, PaddedAll(Values(a)), PaddedAll(Values(b)));
    PaddedAllIsInjective(Values(a), Values(b));
    assert Values(a)[0] == Values(b)[0] && Values(a)[1] == Values(b)[1] && Values(a)[2] == Values(b)[2];
    assert Values(a)[3] == Values(b)[3] && Values(a)[4] == Values(b)[4];
  }

  // ----- layout -----

  lemma JoinThree(seps: string, fields: seq<string>)
    requires |seps| == |fields| == 3
    ensures Join(seps, fields) == [seps[0]] + fields[0] + ([seps[1]] + fields[1] + ([seps[2]] + fields[2]))
  {
    assert Join(seps[1..][1..], fields[1..][1..]) == [seps[2]] + fields[2];
  }

  lemma JoinFive(seps: string, fields: seq<string>)
    requires |seps| == |fields| == 5
    ensures Join(seps, fields) ==
            [seps[0]] + fields[0] +
            ([seps[1]] + fields[1] + ([seps[2]] + fields[2] + ([seps[3]] + fields[3] + ([seps[4]] + fields[4]))))
  {
    JoinThree(seps[2..], fields[2..]);
    assert seps[1..][1..] == seps[2..] && fields[1..][1..] == fields[2..];
    assert Join(seps[1..], fields[1..]) == [seps[1]] + fields[1] + Join(seps[2..], fields[2..]);
  }

  /** A field of two digits with this value. */
  predicate IsTwoDigits(field: string, n: nat) {
    |field| == 2 && AllDigits(field) && Value(field) == n
  }

  lemma TwoDigits(n: nat)
    requires n < 100
    ensures IsTwoDigits(Padded(n, 2), n)
  {
    NineDigits(n);
    ValueOfPadded(n, 2);
  }

  lemma PaddedFive(values: seq<nat>)
    requires |values| == 5
    ensures PaddedAll(values) ==
            [Padded(values[0], 2), Padded(values[1], 2), Padded(values[2], 2), Padded(values[3], 2), Padded(values[4], 2)]
  {
    var f := PaddedAll(values);
    assert f[1..] == PaddedAll(values[1..]) && values[1..][1..] == values[2..];
    assert f[2..] == PaddedAll(values[2..]) && values[2..][1..] == values[3..];
    assert f[3..] == PaddedAll(values[3..]) && values[3..][1..] == values[4..];
    assert f[4..] == PaddedAll(values[4..]);
  }

  /** The text is year-month-day hour:minute:second.fraction, with at least six digits for the nanoseconds. */
  lemma StampLayout(r: Reading)
    returns (month: string, day: string, hour: string, minute: string, second: string, fraction: string)
    requires IsReading(r)
    ensures Stamp(r) ==
            PrintInt(r.tm.year) +
            ("-" + month + ("-" + day + (" " + hour + (":" + minute + (":" + second))))) + "." + fraction
    ensures IsTwoDigits(month, r.tm.month) && IsTwoDigits(day, r.tm.day)
    ensures IsTwoDigits(hour, r.tm.hour) && IsTwoDigits(minute, r.tm.minute) && IsTwoDigits(second, r.tm.second)
    ensures AllDigits(fraction) && Value(fraction) == r.nsec
    ensures |fraction| >= 6 && (|fraction| > 6 ==> fraction[0] != '0')
  {
    var values := Values(r.tm);
    PaddedFive(values);
    JoinFive(SEPARATORS, PaddedAll(values));
    month, day, hour := Padded(values[0], 2), Padded(values[1], 2), Padded(values[2], 2);
    minute, second, fraction := Padded(values[3], 2), Padded(values[4], 2), Padded(r.nsec, FRACTION_WIDTH);
    TwoDigits(values[0]);
    TwoDigits(values[1]);
    TwoDigits(values[2]);
    TwoDigits(values[3]);
    TwoDigits(values[4]);
    ValueOfPadded(r.nsec, FRACTION_WIDTH);
  }

  // ----- order -----

  predicate LexLess(xs: seq<nat>, ys: seq<nat>)
    requires |xs| == |ys|
  {
    xs != [] && (xs[0] < ys[0] || (xs[0] == ys[0] && LexLess(xs[1..], ys[1..])))
  }

  predicate DateBefore(a: Tm, b: Tm) {
    a.year < b.year || (a.year == b.year && LexLess(Values(a), Values(b)))
  }

  /** Earlier in broken-down local time. */
  predicate Earlier(a: Reading, b: Reading) {
    DateBefore(a.tm, b.tm) || (a.tm == b.tm && a.nsec < b.nsec)
  }

  predicate HasFourDigitYear(tm: Tm) {
    1000 <= tm.year <= 9999
  }

  /** One more digit: the digits in front decide, and only if they agree the last one. */
  lemma OneMoreDigit(u: string, v: string, c: char, d: char)
    requires |u| == |v| && AllDigits(u) && AllDigits(v) && IsDigit(c) && IsDigit(d)
    requires (Less(u, v) <==> Value(u) < Value(v)) && (u == v <==> Value(u) == Value(v))
    ensures Less(u + [c], v + [d]) <==> Value(u + [c]) < Value(v + [d])
    ensures u + [c] == v + [d] <==> Value(u + [c]) == Value(v + [d])
  {
    ValueOfLast(u, c);
    ValueOfLast(v, d);
    LastByteDecides(u, v, c, d);
    LastDigitDecides(Value(u), Value(v), DigitValue(c), DigitValue(d));
  }

  lemma LastByteDecides(u: string, v: string, c: char, d: char)
    requires |u| == |v|
    ensures Less(u + [c], v + [d]) <==> Less(u, v) || (u == v && c < d)
    ensures u + [c] == v + [d] <==> u == v && c == d
  {
    assert (u + [c])[..|u|] == u && (v + [d])[..|v|] == v && (u + [c])[|u|] == c && (v + [d])[|v|] == d;
    if u == v {
      LessAfterCommonPrefix(u, [c], [d]);
      NotLessThanItself(u);
      assert Less([c], [d]) <==> c < d;
    } else {
      LessDecidedByPrefix(u, v, [c], [d]);
    }
  }

  lemma {:induction false} NotLessThanItself(s: string)
    ensures !Less(s, s)
  {
    if s != "" {
      NotLessThanItself(s[1..]);
    }
  }

  lemma LastDigitDecides(x: nat, y: nat, c: nat, d: nat)
    requires c < 10 && d < 10
    ensures x * 10 + c < y * 10 + d <==> x < y || (x == y && c < d)
    ensures x * 10 + c == y * 10 + d <==> x == y && c == d
  {
  }

  lemma ValueOfLast(u: string, c: char)
    requires AllDigits(u) && IsDigit(c)
    ensures AllDigits(u + [c]) && Value(u + [c]) == Value(u) * 10 + DigitValue(c)
  {
    assert (u + [c])[..|u|] == u;
  }

  /** For digits of one width, byte order is the order of the numbers. */
  lemma {:induction false} EqualWidthOrder(s: string, t: string)
    requires |s| == |t| && AllDigits(s) && AllDigits(t)
    ensures Less(s, t) <==> Value(s) < Value(t)
    ensures s == t <==> Value(s) == Value(t)
  {
    if s != "" {
      var k := |s| - 1;
      EqualWidthOrder(s[..k], t[..k]);
      assert s == s[..k] + [s[k]] && t == t[..k] + [t[k]];
      OneMoreDigit(s[..k], t[..k], s[k], t[k]);
    }
  }

  lemma {:induction false} JoinOrder(seps: string, xs: seq<nat>, ys: seq<nat>, p: string, q: string)
    requires |seps| == |xs| == |ys| && xs != ys
    requires AreTwoDigits(PaddedAll(xs)) && AreTwoDigits(PaddedAll(ys))
    ensures Less(Join(seps, PaddedAll(xs)) + p, Join(seps, PaddedAll(ys)) + q) <==> LexLess(xs, ys)
  {
    var fx, fy := PaddedAll(xs), PaddedAll(ys);
    var x, y := [seps[0]] + fx[0], [seps[0]] + fy[0];
    var restX, restY := Join(seps[1..], fx[1..]) + p, Join(seps[1..], fy[1..]) + q;
    assert |fx[0]| == 2 && |fy[0]| == 2;
    assert Join(seps, fx) + p == x + restX && Join(seps, fy) + q == y + restY;
    ValueOfPadded(xs[0], 2);
    ValueOfPadded(ys[0], 2);
    EqualWidthOrder(fx[0], fy[0]);
    if xs[0] == ys[0] {
      LessAfterCommonPrefix(x, restX, restY);
      assert xs == [xs[0]] + xs[1..] && ys == [ys[0]] + ys[1..];
      assert fx[1..] == PaddedAll(xs[1..]) && fy[1..] == PaddedAll(ys[1..]);
      JoinOrder(seps[1..], xs[1..], ys[1..], p, q);
    } else {
      LessAfterCommonPrefix([seps[0]], fx[0], fy[0]);
      LessDecidedByPrefix(x, y, restX, restY);
    }
  }

  /** With four-digit years and different seconds, the order of the texts is the order of the times. */
  lemma DateOrder(a: Reading, b: Reading)
    requires IsReading(a) && IsReading(b) && HasFourDigitYear(a.tm) && HasFourDigitYear(b.tm) && a.tm != b.tm
    ensures Less(Stamp(a), Stamp(b)) <==> DateBefore(a.tm, b.tm)
  {
    DateShape(a.tm);
    DateShape(b.tm);
    var p, q := "." + Padded(a.nsec, FRACTION_WIDTH), "." + Padded(b.nsec, FRACTION_WIDTH);
    var x, y := Join(SEPARATORS, PaddedAll(Values(a.tm))) + p, Join(SEPARATORS, PaddedAll(Values(b.tm))) + q;
    var s, t := PrintInt(a.tm.year), PrintInt(b.tm.year);
    assert Stamp(a) == s + x && Stamp(b) == t + y;
    YearOrder(a.tm.year, b.tm.year, x, y);
    if a.tm.year == b.tm.year {
      assert Values(a.tm) != Values(b.tm) by { ValuesDecide(a.tm, b.tm); }
      JoinOrder(SEPARATORS, Values(a.tm), Values(b.tm), p, q);
    }
  }

  /** Texts behind years of four digits. */
  lemma YearOrder(v: int, w: int, x: string, y: string)
    requires 1000 <= v <= 9999 && 1000 <= w <= 9999
    ensures Less(PrintInt(v) + x, PrintInt(w) + y) <==> v < w || (v == w && Less(x, y))
  {
    if v == w {
      LessAfterCommonPrefix(PrintInt(v), x, y);
    } else {
      FourDigits(v);
      FourDigits(w);
      ValueOfPrint(v);
      ValueOfPrint(w);
      EqualWidthOrder(PrintInt(v), PrintInt(w));
      LessDecidedByPrefix(PrintInt(v), PrintInt(w), x, y);
    }
  }

  lemma ValuesDecide(a: Tm, b: Tm)
    requires a.year == b.year && a != b
    ensures Values(a) != Values(b)
  {
    var x, y := Values(a), Values(b);
    assert x[0] != y[0] || x[1] != y[1] || x[2] != y[2] || x[3] != y[3] || x[4] != y[4];
  }

  lemma FourDigits(n: nat)
    requires 1000 <= n <= 9999
    ensures |Print(n)| == 4
  {
    assert Pow10(3) == 1000 && Pow10(4) == 10 * Pow10(3);
    PrintLength(n, 3);
    PrintLength(n, 4);
  }

  lemma {:induction false} PrintGrows(m: nat, n: nat)
    requires m <= n
    ensures |Print(m)| <= |Print(n)|
  {
    if m >= 10 {
      PrintGrows(m / 10, n / 10);
    }
  }

  /** The leading digits of a number are the number without its last ones. */
  lemma {:induction false} LeadingDigits(s: string, k: nat)
    requires k <= |s| && AllDigits(s)
    ensures Value(s[..|s| - k]) == Value(s) / Pow10(k)
  {
    if k == 0 {
      assert s[..|s|] == s;
    } else {
      var init := s[..|s| - 1];
      LeadingDigits(init, k - 1);
      assert init[..|init| - (k - 1)] == s[..|s| - k];
      assert Value(s) / 10 == Value(init);
      DivideTwice(Value(s), Pow10(k - 1));
    }
  }

  lemma DivideTwice(n: nat, p: nat)
    requires p > 0
    ensures (n / 10) / p == n / (10 * p)
  {
    var q := n / (10 * p);
    var r := n % (10 * p);
    assert n == 10 * (p * q) + r;
    assert n / 10 == p * q + r / 10;
    assert r / 10 < p;
    var d := (p * q + r / 10) / p;
    assert p * d <= p * q + r / 10 < p * d + p;
    assert p * (q - d) == p * q - p * d;
    Multiples(p, q - d);
  }

  lemma Multiples(p: int, k: int)
    requires p > 0
    ensures (k > 0 ==> p * k >= p) && (k < 0 ==> p * k <= -p)
  {
  }

  function Width(n: nat): nat {
    |Padded(n, FRACTION_WIDTH)|
  }

  /** The fractions of an earlier and a later reading of one second compare in their order. */
  predicate Comparable(a: nat, b: nat) {
    Width(a) <= Width(b) && a <= b / Pow10(Width(b) - Width(a))
  }

  /** A shorter text is compared with as much of the longer one, and is smaller if that is all the same. */
  lemma HeadDecides(s: string, t: string)
    requires |s| <= |t|
    ensures Less(s, t) <==> Less(s, t[..|s|]) || (s == t[..|s|] && |s| < |t|)
  {
    var head, tail := t[..|s|], t[|s|..];
    assert t == head + tail && s == s + "";
    if s == head {
      LessAfterCommonPrefix(s, "", tail);
      NotLessThanItself(s);
    } else {
      LessDecidedByPrefix(s, head, "", tail);
    }
  }

  lemma FractionOrder(a: nat, b: nat)
    requires a < b
    ensures Less(Padded(a, FRACTION_WIDTH), Padded(b, FRACTION_WIDTH)) <==> Comparable(a, b)
  {
    PrintGrows(a, b);
    ValueOfPadded(a, FRACTION_WIDTH);
    ValueOfPadded(b, FRACTION_WIDTH);
    DigitsOrder(Padded(a, FRACTION_WIDTH), Padded(b, FRACTION_WIDTH));
  }

  lemma DigitsOrder(s: string, t: string)
    requires AllDigits(s) && AllDigits(t) && |s| <= |t| && Value(s) < Value(t)
    ensures Less(s, t) <==> Value(s) <= Value(t) / Pow10(|t| - |s|)
  {
    HeadDecides(s, t);
    LeadingDigits(t, |t| - |s|);
    EqualWidthOrder(s, t[..|s|]);
    if |s| == |t| {
      assert t[..|s|] == t && Pow10(0) == 1;
    }
  }

  /** When a later reading has the greater text: always across seconds, else exactly if Comparable. */
  lemma OrderIsKeptExactly(a: Reading, b: Reading)
    requires IsReading(a) && IsReading(b) && HasFourDigitYear(a.tm) && HasFourDigitYear(b.tm) && Earlier(a, b)
    ensures Less(Stamp(a), Stamp(b)) <==> a.tm != b.tm || Comparable(a.nsec, b.nsec)
  {
    if a.tm != b.tm {
      DateOrder(a, b);
    } else {
      NotBeforeItself(Values(a.tm));
      LessAfterCommonPrefix(Date(a.tm) + ".", Padded(a.nsec, FRACTION_WIDTH), Padded(b.nsec, FRACTION_WIDTH));
      FractionOrder(a.nsec, b.nsec);
    }
  }

  lemma {:induction false} NotBeforeItself(xs: seq<nat>)
    ensures !LexLess(xs, xs)
  {
    if xs != [] {
      NotBeforeItself(xs[1..]);
    }
  }

  /** Nine-digit fractions always compare in their order. */
  lemma NineDigitsCompare(a: nat, b: nat)
    requires 100_000_000 <= a <= b < 1_000_000_000
    ensures Comparable(a, b)
  {
    NineDigits(a);
    NineDigits(b);
    PrintGrows(a, b);
    assert Pow10(0) == 1;
  }

  /** `max(event_timestamp)` over readings that compare pairwise is a latest reading. */
  lemma MaxIsLatest(readings: seq<Reading>, k: nat)
    requires k < |readings|
    requires forall i :: 0 <= i < |readings| ==> IsReading(readings[i]) && HasFourDigitYear(readings[i].tm)
    requires forall i, j :: 0 <= i < |readings| && 0 <= j < |readings| && Earlier(readings[i], readings[j]) ==>
               readings[i].tm != readings[j].tm || Comparable(readings[i].nsec, readings[j].nsec)
    requires forall i :: 0 <= i < |readings| ==> AtMost(Stamp(readings[i]), Stamp(readings[k]))
    ensures forall i :: 0 <= i < |readings| ==> !Earlier(readings[k], readings[i])
  {
    forall i | 0 <= i < |readings|
      ensures !Earlier(readings[k], readings[i])
    {
      var a, b := readings[k], readings[i];
      if Earlier(a, b) {
        OrderIsKeptExactly(a, b);
        assert Less(Stamp(a), Stamp(b));
        LessIsStrictAndTotal(Stamp(a), Stamp(b));
        assert false;
      }
    }
  }

  /** Five and ten milliseconds into one second: the earlier reading has the greater text. */
  lemma MaxCanBeEarlier(tm: Tm)
    requires IsTm(tm) && HasFourDigitYear(tm)
    ensures var a, b := Reading(tm, 5_000_000), Reading(tm, 10_000_000);
            Earlier(a, b) && Less(Stamp(b), Stamp(a))
  {
    var a, b := Reading(tm, 5_000_000), Reading(tm, 10_000_000);
    OrderIsKeptExactly(a, b);
    FiveAndTen();
    if Stamp(a) == Stamp(b) {
      StampIsInjective(a, b);
    }
    LessIsStrictAndTotal(Stamp(a), Stamp(b));
  }

  /** Seven digits against eight, and 5_000_000 > 10_000_000 / 10. */
  lemma FiveAndTen()
    ensures !Comparable(5_000_000, 10_000_000)
  {
    assert Pow10(7) == 10_000_000 by {
      assert Pow10(4) == 10_000;
    }
    PrintLength(5_000_000, 6);
    PrintLength(5_000_000, 7);
    PrintLength(10_000_000, 7);
    PrintLength(10_000_000, 8);
    assert Pow10(1) == 10 * Pow10(0);
  }
}
