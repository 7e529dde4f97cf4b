/** The few JavaScript string operations the theme controllers rely on:
    prefix and substring tests, global literal replacement, and the
    decimal conversions behind `Number.prototype.toString`, `parseInt`
    and `String.prototype.padStart`. */
module Strings {
  import opened Wrappers

  predicate StartsWith(s: string, p: string) {
    |p| <= |s| && s[..|p|] == p
  }

  /** `s.includes(p)`, which is also the CSS attribute test `[id*="p"]`. */
  predicate Contains(s: string, p: string)
    decreases |s|
  {
    StartsWith(s, p) || (|s| > 0 && Contains(s[1..], p))
  }

  lemma ContainsOwnPrefix(p: string, rest: string)
    ensures Contains(p + rest, p)
  {
    assert (p + rest)[..|p|] == p;
  }

  lemma ContainsSelf(x: string)
    ensures Contains(x, x)
  {
    assert x[..|x|] == x;
  }

  /** An occurrence stays an occurrence when text is added after it. */
  lemma {:induction false} ContainsExtendRight(s: string, b: string, x: string)
    requires Contains(s, x)
    ensures Contains(s + b, x)
    decreases |s|
  {
    if StartsWith(s, x) {
      assert (s + b)[..|x|] == s[..|x|];
    } else {
      assert (s + b)[1..] == s[1..] + b;
      ContainsExtendRight(s[1..], b, x);
    }
  }

  /** An occurrence stays an occurrence when text is added before it. */
  lemma {:induction false} ContainsExtendLeft(a: string, s: string, x: string)
    requires Contains(s, x)
    ensures Contains(a + s, x)
    decreases |a|
  {
    if |a| == 0 {
      assert a + s == s;
    } else {
      assert (a + s)[1..] == a[1..] + s;
      ContainsExtendLeft(a[1..], s, x);
    }
  }

  /** A piece of a concatenation occurs in it. */
  lemma ContainsMiddle(a: string, x: string, b: string)
    ensures Contains(a + x + b, x)
  {
    ContainsSelf(x);
    ContainsExtendLeft(a, x, x);
    ContainsExtendRight(a + x, b, x);
  }

  /** `s.replace(/p/g, r)` for a pattern without metacharacters and a
      replacement without `$` (whose `$&`, `$1` and `$$` JavaScript would
      expand): matches are taken left to right, never overlap, and the
      inserted text is not searched again. */
  function ReplaceAll(s: string, p: string, r: string): string
    requires |p| > 0
    decreases |s|
  {
    if |s| == 0 then ""
    else if StartsWith(s, p) then r + ReplaceAll(s[|p|..], p, r)
    else [s[0]] + ReplaceAll(s[1..], p, r)
  }

  /** Text without a match is left as it is. */
  lemma {:induction false} ReplaceAllWithoutMatch(s: string, p: string, r: string)
    requires |p| > 0 && !Contains(s, p)
    ensures ReplaceAll(s, p, r) == s
    decreases |s|
  {
    if |s| > 0 {
      ReplaceAllWithoutMatch(s[1..], p, r);
    }
  }

  /** A text in which no occurrence of a `{{`-pattern can begin: every `{` is
      followed, inside the text itself, by a character other than `{`. */
  predicate NoDoubleBrace(s: string) {
    forall i :: 0 <= i < |s| && s[i] == '{' ==> i + 1 < |s| && s[i + 1] != '{'
  }

  lemma NoDoubleBraceAppend(a: string, b: string)
    requires NoDoubleBrace(a) && NoDoubleBrace(b)
    ensures NoDoubleBrace(a + b)
  {
    forall i | 0 <= i < |a + b| && (a + b)[i] == '{'
      ensures i + 1 < |a + b| && (a + b)[i + 1] != '{'
    {
      if i >= |a| {
        assert b[i - |a|] == '{';
      }
    }
  }

  /** Text in which no `{{`-pattern can start is copied through unchanged,
      and replacement resumes right after it. */
  lemma {:induction false} ReplaceAllSkips(a: string, b: string, p: string, r: string)
    requires |p| >= 2 && p[0] == '{' && p[1] == '{'
    requires NoDoubleBrace(a)
    ensures ReplaceAll(a + b, p, r) == a + ReplaceAll(b, p, r)
    decreases |a|
  {
    if |a| > 0 {
      var s := a + b;
      assert !StartsWith(s, p);
      assert s[1..] == a[1..] + b;
      assert NoDoubleBrace(a[1..]) by {
        forall i | 0 <= i < |a[1..]| && a[1..][i] == '{'
          ensures i + 1 < |a[1..]| && a[1..][i + 1] != '{'
        {
          assert a[i + 1] == '{';
        }
      }
      ReplaceAllSkips(a[1..], b, p, r);
    } else {
      assert a + b == b;
    }
  }

  /** No `{{`-pattern occurs in text in which none can begin. */
  lemma {:induction false} NoDoubleBraceExcludes(s: string, p: string)
    requires |p| >= 2 && p[0] == '{' && p[1] == '{'
    requires NoDoubleBrace(s)
    ensures !Contains(s, p)
    decreases |s|
  {
    if |s| > 0 {
      assert !StartsWith(s, p);
      assert NoDoubleBrace(s[1..]) by {
        forall i | 0 <= i < |s[1..]| && s[1..][i] == '{'
          ensures i + 1 < |s[1..]| && s[1..][i + 1] != '{'
        {
          assert s[i + 1] == '{';
        }
      }
      NoDoubleBraceExcludes(s[1..], p);
    }
  }

  /** A match at the front is replaced, and replacement resumes after it. */
  lemma ReplaceAllMatch(b: string, p: string, r: string)
    requires |p| > 0
    ensures ReplaceAll(p + b, p, r) == r + ReplaceAll(b, p, r)
  {
    var s := p + b;
    assert s[..|p|] == p;
    assert s[|p|..] == b;
  }

  // ---------------------------------------------------------------------
  // Decimal numbers

  predicate IsDigit(c: char) {
    '0' <= c <= '9'
  }

  predicate AllDigits(s: string) {
    forall i :: 0 <= i < |s| ==> IsDigit(s[i])
  }

  function DigitChar(d: nat): (c: char)
    requires d < 10
    ensures IsDigit(c) && c as int - '0' as int == d
  {
    ('0' as int + d) as char
  }

  function DigitValue(c: char): nat
    requires IsDigit(c)
  {
    c as int - '0' as int
  }

  /** The decimal digits of `n`, most significant first, without leading zeros. */
  function NatToString(n: nat): (s: string)
    ensures |s| > 0 && AllDigits(s)
    ensures n >= 10 <==> |s| > 1
    ensures s[0] == '0' <==> n == 0
    decreases n
  {
    if n < 10 then [DigitChar(n)] else NatToString(n / 10) + [DigitChar(n % 10)]
  }

  /** The value of a string of decimal digits. */
  function DigitsValue(s: string): nat
    requires AllDigits(s)
    decreases |s|
  {
    if |s| == 0 then 0 else DigitsValue(s[..|s| - 1]) * 10 + DigitValue(s[|s| - 1])
  }

  lemma {:induction false} DigitsValueOfNatToString(n: nat)
    ensures DigitsValue(NatToString(n)) == n
    decreases n
  {
    if n >= 10 {
      var s := NatToString(n);
      assert s[..|s| - 1] == NatToString(n / 10);
      DigitsValueOfNatToString(n / 10);
    }
  }

  /** `String(n)` / `n.toString()` for an integer-valued number. */
  function IntToString(n: int): (s: string)
    ensures |s| > 0
  {
    if n < 0 then "-" + NatToString(-n) else NatToString(n)
  }

  /** `String(n).padStart(2, '0')`. */
  function Pad2(n: nat): (s: string)
    ensures |s| >= 2
    ensures n < 100 ==> |s| == 2
  {
    if n < 10 then "0" + NatToString(n) else NatToString(n)
  }

  /** The characters `parseInt` and `Number` skip (StrWhiteSpaceChar):
      the ASCII white space, the byte-order mark, the line and paragraph
      separators and every space separator of Unicode category Zs. */
  predicate IsJsSpace(c: char) {
    c == ' ' || c == '\t' || c == '\n' || c == '\r' || c == '\U{0B}' || c == '\U{0C}'
    || c == '\U{A0}' || c == '\U{FEFF}' || c == '\U{2028}' || c == '\U{2029}'
    || c == '\U{1680}' || ('\U{2000}' <= c <= '\U{200A}')
    || c == '\U{202F}' || c == '\U{205F}' || c == '\U{3000}'
  }

  function SkipSpaces(s: string): (t: string)
    ensures |t| <= |s| && t == s[|s| - |t|..]
    ensures |t| > 0 ==> !IsJsSpace(t[0])
    decreases |s|
  {
    if |s| > 0 && IsJsSpace(s[0]) then SkipSpaces(s[1..]) else s
  }

  /** The longest prefix of `s` made of decimal digits. */
  function LeadingDigits(s: string): (ds: string)
    ensures AllDigits(ds) && StartsWith(s, ds)
    ensures |ds| < |s| ==> !IsDigit(s[|ds|])
    decreases |s|
  {
    if |s| > 0 && IsDigit(s[0]) then [s[0]] + LeadingDigits(s[1..]) else ""
  }

  lemma {:induction false} LeadingDigitsOfDigits(s: string)
    requires AllDigits(s)
    ensures LeadingDigits(s) == s
    decreases |s|
  {
    if |s| > 0 {
      LeadingDigitsOfDigits(s[1..]);
      assert [s[0]] + s[1..] == s;
    }
  }

  predicate IsHexDigit(c: char) {
    IsDigit(c) || 'a' <= c <= 'f' || 'A' <= c <= 'F'
  }

  predicate AllHexDigits(s: string) {
    forall i :: 0 <= i < |s| ==> IsHexDigit(s[i])
  }

  function HexDigitValue(c: char): (d: nat)
    requires IsHexDigit(c)
    ensures d < 16
    ensures IsDigit(c) ==> d == DigitValue(c)
  {
    if IsDigit(c) then DigitValue(c)
    else if 'a' <= c <= 'f' then c as int - 'a' as int + 10
    else c as int - 'A' as int + 10
  }

  /** The value of a string of hexadecimal digits. */
  function HexValue(s: string): nat
    requires AllHexDigits(s)
    decreases |s|
  {
    if |s| == 0 then 0 else HexValue(s[..|s| - 1]) * 16 + HexDigitValue(s[|s| - 1])
  }

  /** The longest prefix of `s` made of hexadecimal digits. */
  function LeadingHexDigits(s: string): (ds: string)
    ensures AllHexDigits(ds) && StartsWith(s, ds)
    ensures |ds| < |s| ==> !IsHexDigit(s[|ds|])
    decreases |s|
  {
    if |s| > 0 && IsHexDigit(s[0]) then [s[0]] + LeadingHexDigits(s[1..]) else ""
  }

  /** `u` starts with the `0x` or `0X` that makes `parseInt` read base 16. */
  predicate HexPrefixed(u: string) {
    |u| >= 2 && u[0] == '0' && (u[1] == 'x' || u[1] == 'X')
  }

  /** The digits `parseInt` reads from text with no leading space or sign:
      hexadecimal ones after a `0x` or `0X`, decimal ones otherwise. */
  function Mantissa(u: string): (ds: string)
    ensures HexPrefixed(u) ==> AllHexDigits(ds)
    ensures !HexPrefixed(u) ==> AllDigits(ds)
  {
    if HexPrefixed(u) then LeadingHexDigits(u[2..]) else LeadingDigits(u)
  }

  /** `parseInt(s)` without a radix: skip leading white space, then read
      as `ParseSigned` does. `None` is `NaN`. */
  function ParseInt(s: string): (r: Option<int>)
    ensures r.None? <==> Mantissa(SignFree(SkipSpaces(s))) == ""
    ensures var t := SkipSpaces(s);
      r.Some? && r.value < 0 ==> |t| > 0 && t[0] == '-'
  {
    ParseSigned(SkipSpaces(s))
  }

  /** The reading of text that starts after the white space: an optional
      sign, then, after a `0x` or `0X`, as many hexadecimal digits as
      there are, and otherwise as many decimal digits as there are. */
  function ParseSigned(t: string): Option<int> {
    var u := SignFree(t);
    var ds := Mantissa(u);
    if |ds| == 0 then None
    else
      var magnitude: int := if HexPrefixed(u) then HexValue(ds) else DigitsValue(ds);
      if |t| > 0 && t[0] == '-' then Some(-magnitude) else Some(magnitude)
  }

  /** `t` without one leading `+` or `-`. */
  function SignFree(t: string): string {
    if |t| > 0 && (t[0] == '-' || t[0] == '+') then t[1..] else t
  }

  /** `parseInt` reads back exactly the integer that `toString` wrote. */
  lemma ParseIntOfIntToString(n: int)
    ensures ParseInt(IntToString(n)) == Some(n)
  {
    var m: nat := if n < 0 then -n else n;
    var digits := NatToString(m);
    var s := IntToString(n);
    SkipSpacesOfIntToString(n);
    assert SignFree(s) == digits;
    MantissaOfDigits(digits);
    DigitsValueOfNatToString(m);
  }

  lemma SkipSpacesOfIntToString(n: int)
    ensures SkipSpaces(IntToString(n)) == IntToString(n)
  {
    var s := IntToString(n);
    assert !IsJsSpace(s[0]);
  }

  lemma MantissaOfDigits(ds: string)
    requires AllDigits(ds)
    ensures Mantissa(ds) == ds
  {
    assert !HexPrefixed(ds) by {
      if |ds| >= 2 { assert IsDigit(ds[1]); }
    }
    LeadingDigitsOfDigits(ds);
  }

  lemma {:induction false} LeadingHexDigitsOfHexDigits(s: string)
    requires AllHexDigits(s)
    ensures LeadingHexDigits(s) == s
    decreases |s|
  {
    if |s| > 0 {
      LeadingHexDigitsOfHexDigits(s[1..]);
      assert [s[0]] + s[1..] == s;
    }
  }

  lemma MantissaOfHex(x: char, ds: string)
    requires x == 'x' || x == 'X'
    requires AllHexDigits(ds)
    ensures Mantissa(['0', x] + ds) == ds
  {
    var s := ['0', x] + ds;
    LeadingHexDigitsOfHexDigits(ds);
    assert s[2..] == ds;
    assert HexPrefixed(s);
  }

  lemma ParseSignedHex(x: char, ds: string)
    requires x == 'x' || x == 'X'
    requires |ds| > 0 && AllHexDigits(ds)
    ensures ParseSigned(['0', x] + ds) == Some(HexValue(ds))
  {
    var s := ['0', x] + ds;
    MantissaOfHex(x, ds);
    assert SignFree(s) == s;
  }

  lemma SkipSpacesAtZero(x: char, ds: string)
    ensures SkipSpaces(['0', x] + ds) == ['0', x] + ds
  {
    var s := ['0', x] + ds;
    assert !IsJsSpace(s[0]);
  }

  /** After `0x` (or `0X`) the digits are read in base 16. */
  lemma ParseIntReadsHex(x: char, ds: string)
    requires x == 'x' || x == 'X'
    requires |ds| > 0 && AllHexDigits(ds)
    ensures ParseInt(['0', x] + ds) == Some(HexValue(ds))
  {
    SkipSpacesAtZero(x, ds);
    ParseSignedHex(x, ds);
  }

  /** A `0x` prefix with no hexadecimal digit after it is `NaN`. */
  lemma ParseIntHexWithoutDigits(x: char, rest: string)
    requires x == 'x' || x == 'X'
    requires |rest| == 0 || !IsHexDigit(rest[0])
    ensures ParseInt(['0', x] + rest) == None
  {
    var s := ['0', x] + rest;
    assert SkipSpaces(s) == s;
    assert SignFree(s) == s;
    assert HexPrefixed(s);
    assert s[2..] == rest;
    assert Mantissa(s) == "";
  }

  /** A leading white-space character of any kind is skipped. */
  lemma ParseIntSkipsSpace(c: char, s: string)
    requires IsJsSpace(c)
    ensures ParseInt([c] + s) == ParseInt(s)
  {
    assert ([c] + s)[1..] == s;
  }

  /** `Number(s)` for the strings that hold a plain decimal integer
      (surrounding white space allowed, an empty text reads as 0);
      `None` is `NaN`. */
  function DecimalNumber(s: string): (r: Option<int>)
    ensures TrimmedEnd(SkipSpaces(s)) == "" ==> r == Some(0)
  {
    var t := TrimmedEnd(SkipSpaces(s));
    if |t| == 0 then Some(0)
    else
      var body := SignFree(t);
      if |body| > 0 && AllDigits(body) then
        var magnitude: int := DigitsValue(body);
        Some(if t[0] == '-' then -magnitude else magnitude)
      else None
  }

  /** `s` without trailing white space. */
  function TrimmedEnd(s: string): (t: string)
    ensures |t| <= |s| && t == s[..|t|]
    decreases |s|
  {
    if |s| > 0 && IsJsSpace(s[|s| - 1]) then TrimmedEnd(s[..|s| - 1]) else s
  }
}
