/** The parts of Python 3's string and number semantics that the two command
    modules rely on: `str.isspace`, `str.strip`, `str.upper`, `str.split` on one
    character, `str(n)`, `int(s)`, `format(n, '02d')`, `html.escape`, `round` of an
    exact quotient and `int` of a float. */
module PyText {
  import opened Wrappers

  // ---------------------------------------------------------------- characters

  /** `c.isspace()`: the characters `str.strip()` and `int()` treat as whitespace. */
  predicate IsSpace(c: char) {
    ('\t' <= c <= '\r') || ('\U{1C}' <= c <= '\U{1F}') || c == ' ' || c == '\U{85}' || c == '\U{A0}'
    || c == '\U{1680}' || ('\U{2000}' <= c <= '\U{200A}') || c == '\U{2028}' || c == '\U{2029}'
    || c == '\U{202F}' || c == '\U{205F}' || c == '\U{3000}'
  }

  predicate IsDigit(c: char) {
    '0' <= c <= '9'
  }

  predicate AllDigits(s: string) {
    forall i :: 0 <= i < |s| ==> IsDigit(s[i])
  }

  /** Every character of `s` is whitespace (so also the empty string). */
  predicate IsBlank(s: string) {
    forall i :: 0 <= i < |s| ==> IsSpace(s[i])
  }

  predicate StartsWith(s: string, prefix: string) {
    |prefix| <= |s| && s[..|prefix|] == prefix
  }

  // ---------------------------------------------------------------- strip

  /** `s.lstrip()`: drops the leading whitespace and nothing else. */
  function LStrip(s: string): (r: string)
    ensures |r| <= |s| && r == s[|s| - |r|..]
    ensures IsBlank(s[..|s| - |r|])
    ensures r == "" || !IsSpace(r[0])
  {
    if s != "" && IsSpace(s[0]) then
      var r := LStrip(s[1..]);
      assert s[..|s| - |r|] == [s[0]] + s[1..][..|s| - 1 - |r|];
      r
    else
      s
  }

  /** `s.rstrip()`: drops the trailing whitespace and nothing else. */
  function RStrip(s: string): (r: string)
    ensures |r| <= |s| && r == s[..|r|]
    ensures IsBlank(s[|r|..])
    ensures r == "" || !IsSpace(r[|r| - 1])
  {
    if s != "" && IsSpace(s[|s| - 1]) then
      var r := RStrip(s[..|s| - 1]);
      assert s[|r|..] == s[..|s| - 1][|r|..] + [s[|s| - 1]];
      r
    else
      s
  }

  /** `s.strip()`. */
  function Strip(s: string): string {
    RStrip(LStrip(s))
  }

  /** `s.strip()` is empty exactly when `s` is all whitespace. */
  lemma StripEmptyIffBlank(s: string)
    ensures Strip(s) == "" <==> IsBlank(s)
  {
    var l := LStrip(s);
    assert s == s[..|s| - |l|] + l;
    if Strip(s) == "" {
      assert l[0..] == l;
    }
  }

  /** A string with no whitespace at either end is its own `strip()`. */
  lemma StripUnchanged(s: string)
    requires s != "" && !IsSpace(s[0]) && !IsSpace(s[|s| - 1])
    ensures Strip(s) == s
  {
    assert LStrip(s) == s;
  }

  // ---------------------------------------------------------------- upper

  function UpperChar(c: char): char {
    if 'a' <= c <= 'z' then (c as int - 32) as char else c
  }

  /** `s.upper()` for ASCII letters; every other character is kept. */
  function Upper(s: string): (r: string)
    ensures |r| == |s|
    ensures forall i :: 0 <= i < |s| ==> r[i] == UpperChar(s[i])
  {
    if s == "" then "" else [UpperChar(s[0])] + Upper(s[1..])
  }

  // ---------------------------------------------------------------- split

  /** `s.split(sep)` for a one-character separator. */
  function SplitOn(s: string, sep: char): (parts: seq<string>)
    ensures parts != []
    ensures forall i :: 0 <= i < |parts| ==> sep !in parts[i]
  {
    if s == "" then [""]
    else
      var rest := SplitOn(s[1..], sep);
      if s[0] == sep then [""] + rest else [[s[0]] + rest[0]] + rest[1..]
  }

  /** `s.split(sep)` yields one more part than there are separators in `s`. */
  lemma {:induction false} SplitOnCount(s: string, sep: char)
    ensures |SplitOn(s, sep)| == multiset(s)[sep] + 1
  {
    if s != "" {
      SplitOnCount(s[1..], sep);
      assert s == [s[0]] + s[1..];
      assert multiset(s) == multiset([s[0]]) + multiset(s[1..]);
    }
  }

  /** Splitting `a + sep + b` gives back `a` and `b` when neither holds `sep`. */
  lemma {:induction false} SplitOnTwo(a: string, b: string, sep: char)
    requires sep !in a && sep !in b
    ensures SplitOn(a + [sep] + b, sep) == [a, b]
  {
    if a == "" {
      assert [sep] + b == a + [sep] + b;
      SplitOnNone(b, sep);
    } else {
      SplitOnTwo(a[1..], b, sep);
      assert (a + [sep] + b)[1..] == a[1..] + [sep] + b;
      assert [a[0]] + a[1..] == a;
    }
  }

  /** A string without the separator splits into itself. */
  lemma {:induction false} SplitOnNone(s: string, sep: char)
    requires sep !in s
    ensures SplitOn(s, sep) == [s]
  {
    if s != "" {
      SplitOnNone(s[1..], sep);
      assert [s[0]] + s[1..] == s;
    }
  }

  // ---------------------------------------------------------------- str(n)

  function DigitChar(d: nat): (c: char)
    requires d < 10
    ensures IsDigit(c) && c as int - '0' as int == d
  {
    ('0' as int + d) as char
  }

  /** `str(n)` for a non-negative integer: decimal digits without leading zeros. */
  function NatToString(n: nat): (r: string)
    ensures r != "" && AllDigits(r)
    ensures |r| > 1 ==> r[0] != '0'
  {
    if n < 10 then [DigitChar(n)] else NatToString(n / 10) + [DigitChar(n % 10)]
  }

  /** `str(i)`, and also what an f-string shows for an int. */
  function IntToString(i: int): (r: string)
    ensures r != "" && forall k :: 0 <= k < |r| ==> IsDigit(r[k]) || r[k] == '-'
  {
    if i < 0 then "-" + NatToString(-i) else NatToString(i)
  }

  /** The number a string of decimal digits denotes (leading zeros allowed). */
  function DigitsValue(s: string): nat
    requires AllDigits(s)
  {
    if s == "" then 0 else DigitsValue(s[..|s| - 1]) * 10 + (s[|s| - 1] as int - '0' as int)
  }

  lemma {:induction false} DigitsValueOfNatToString(n: nat)
    ensures DigitsValue(NatToString(n)) == n
  {
    if n >= 10 {
      DigitsValueOfNatToString(n / 10);
      var s := NatToString(n);
      assert s[..|s| - 1] == NatToString(n / 10);
    }
  }

  /** A leading zero does not change the value of a digit string. */
  lemma {:induction false} DigitsValueLeadingZero(s: string)
    requires AllDigits(s)
    ensures AllDigits("0" + s) && DigitsValue("0" + s) == DigitsValue(s)
  {
    if s != "" {
      DigitsValueLeadingZero(s[..|s| - 1]);
      assert ("0" + s)[..|"0" + s| - 1] == "0" + s[..|s| - 1];
    }
  }

  // ---------------------------------------------------------------- int(s)

  /** The digits of a base-10 `int()` literal: ASCII digits, with single
      underscores allowed between two digits. */
  predicate WellGrouped(s: string) {
    && s != ""
    && IsDigit(s[0])
    && IsDigit(s[|s| - 1])
    && (forall i :: 0 <= i < |s| ==> IsDigit(s[i]) || s[i] == '_')
    && (forall i :: 0 <= i < |s| - 1 ==> !(s[i] == '_' && s[i + 1] == '_'))
  }

  function DropUnderscores(s: string): (r: string)
    requires forall i :: 0 <= i < |s| ==> IsDigit(s[i]) || s[i] == '_'
    ensures AllDigits(r)
    ensures AllDigits(s) ==> r == s
  {
    if s == "" then "" else (if s[0] == '_' then "" else [s[0]]) + DropUnderscores(s[1..])
  }

  /** `int(s)` for a string: `None` where Python raises ValueError. Surrounding
      whitespace and one sign are accepted. */
  function ParseInt(s: string): (r: Option<int>)
    ensures IsBlank(s) ==> r == None
  {
    StripEmptyIffBlank(s);
    ParseNumeral(Strip(s))
  }

  /** `int()` of a text with the whitespace already stripped: an optional sign
      followed by well-grouped digits. */
  function ParseNumeral(t: string): (r: Option<int>)
    ensures t == "" ==> r == None
  {
    if t != "" && (t[0] == '+' || t[0] == '-') then
      match ParseDigits(t[1..])
      case None => None
      case Some(v) => Some(if t[0] == '-' then -(v as int) else v as int)
    else match ParseDigits(t)
      case None => None
      case Some(v) => Some(v as int)
  }

  /** The unsigned part of an `int()` literal. */
  function ParseDigits(b: string): (r: Option<nat>)
    ensures b == "" ==> r == None
  {
    if WellGrouped(b) then Some(DigitsValue(DropUnderscores(b))) else None
  }

  /** Plain digits are a well-grouped literal with their own value. */
  lemma ParseDigitsOfDigits(d: string)
    requires d != "" && AllDigits(d)
    ensures ParseDigits(d) == Some(DigitsValue(d))
  {
    assert WellGrouped(d);
    assert DropUnderscores(d) == d;
  }

  /** `int(str(n)) == n`. */
  lemma ParseIntOfIntToString(n: int)
    ensures ParseInt(IntToString(n)) == Some(n)
  {
    var m: nat := if n < 0 then -n else n;
    DigitsValueOfNatToString(m);
    if n < 0 {
      ParseIntOfNegatedDigits(NatToString(m));
    } else {
      ParseIntOfDigits(NatToString(m));
    }
  }

  /** Different integers print differently. */
  lemma IntToStringInjective(x: int, y: int)
    ensures IntToString(x) == IntToString(y) ==> x == y
  {
    ParseIntOfIntToString(x);
    ParseIntOfIntToString(y);
  }

  /** A non-empty digit string parses as the number it denotes. */
  lemma ParseIntOfDigits(d: string)
    requires d != "" && AllDigits(d)
    ensures ParseInt(d) == Some(DigitsValue(d) as int)
  {
    assert IsDigit(d[|d| - 1]);
    StripUnchanged(d);
    NumeralOfDigits(d);
  }

  lemma NumeralOfDigits(d: string)
    requires d != "" && AllDigits(d)
    ensures ParseNumeral(d) == Some(DigitsValue(d) as int)
  {
    assert IsDigit(d[0]);
    ParseDigitsOfDigits(d);
  }

  /** The same digits after a minus sign parse as the negated number. */
  lemma ParseIntOfNegatedDigits(d: string)
    requires d != "" && AllDigits(d)
    ensures ParseInt("-" + d) == Some(-(DigitsValue(d) as int))
  {
    var s := "-" + d;
    assert s[|s| - 1] == d[|d| - 1] && IsDigit(d[|d| - 1]);
    StripUnchanged(s);
    NumeralOfNegatedDigits(d);
  }

  lemma NumeralOfNegatedDigits(d: string)
    requires d != "" && AllDigits(d)
    ensures ParseNumeral("-" + d) == Some(-(DigitsValue(d) as int))
  {
    var t := "-" + d;
    assert t[0] == '-' && t[1..] == d;
    ParseDigitsOfDigits(d);
  }

  /** `format(n, '02d')`: zero-padded to two characters when non-negative. */
  function Pad2(n: int): (r: string)
    ensures |r| >= 2
    ensures 0 <= n < 100 ==> |r| == 2
    ensures forall k :: 0 <= k < |r| ==> IsDigit(r[k]) || r[k] == '-'
  {
    if n < 0 then "-" + NatToString(-n)
    else if n < 10 then "0" + NatToString(n)
    else
      assert n < 100 ==> NatToString(n) == NatToString(n / 10) + [DigitChar(n % 10)];
      NatToString(n)
  }

  /** A text of digits and minus signs holds no other character. */
  lemma NumeralLacks(s: string, c: char)
    requires forall k :: 0 <= k < |s| ==> IsDigit(s[k]) || s[k] == '-'
    requires !IsDigit(c) && c != '-'
    ensures c !in s
  {
  }

  /** The padded text reads back as the same number. */
  lemma Pad2ReadsBack(n: int)
    ensures ParseInt(Pad2(n)) == Some(n)
  {
    if 0 <= n < 10 {
      DigitsValueLeadingZero(NatToString(n));
      DigitsValueOfNatToString(n);
      ParseIntOfDigits(Pad2(n));
    } else {
      assert Pad2(n) == IntToString(n);
      ParseIntOfIntToString(n);
    }
  }

  // ---------------------------------------------------------------- html.escape

  function EscapeChar(c: char): string {
    if c == '&' then "&amp;"
    else if c == '<' then "&lt;"
    else if c == '>' then "&gt;"
    else if c == '"' then "&quot;"
    else if c == '\'' then "&#x27;"
    else [c]
  }

  /** `html.escape(s)` with `quote=True`. The library replaces `&` first and then
      the four other characters; since no replacement text holds `<`, `>`, `"` or
      `'`, that is the same as escaping character by character. */
  function Escape(s: string): (r: string)
    ensures forall i :: 0 <= i < |r| ==> r[i] != '<' && r[i] != '>' && r[i] != '"' && r[i] != '\''
    ensures |r| >= |s|
  {
    if s == "" then "" else EscapeChar(s[0]) + Escape(s[1..])
  }

  /** Decodes the five character references `Escape` writes (the part of
      `html.unescape` that undoes `html.escape`). */
  function Unescape(s: string): string
    decreases |s|
  {
    if s == "" then ""
    else if StartsWith(s, "&amp;") then "&" + Unescape(s[5..])
    else if StartsWith(s, "&lt;") then "<" + Unescape(s[4..])
    else if StartsWith(s, "&gt;") then ">" + Unescape(s[4..])
    else if StartsWith(s, "&quot;") then "\"" + Unescape(s[6..])
    else if StartsWith(s, "&#x27;") then "'" + Unescape(s[6..])
    else [s[0]] + Unescape(s[1..])
  }

  lemma UnescapeStep(c: char, t: string)
    ensures Unescape(EscapeChar(c) + t) == [c] + Unescape(t)
  {
    var e := EscapeChar(c) + t;
    if c == '&' {
      assert StartsWith(e, "&amp;") && e[5..] == t;
    } else if c == '<' {
      UnescapeEntity(e, "&lt;", '<', t);
    } else if c == '>' {
      UnescapeEntity(e, "&gt;", '>', t);
    } else if c == '"' {
      UnescapeEntity(e, "&quot;", '"', t);
    } else if c == '\'' {
      UnescapeEntity(e, "&#x27;", '\'', t);
    } else {
      assert e[0] == c && e[1..] == t;
      assert !StartsWith(e, "&amp;") && !StartsWith(e, "&lt;") && !StartsWith(e, "&gt;")
        && !StartsWith(e, "&quot;") && !StartsWith(e, "&#x27;") by {
        assert e[..1] == [c];
      }
    }
  }

  lemma UnescapeEntity(e: string, ref: string, c: char, t: string)
    requires ref in {"&lt;", "&gt;", "&quot;", "&#x27;"}
    requires c == (if ref == "&lt;" then '<' else if ref == "&gt;" then '>' else if ref == "&quot;" then '"' else '\'')
    requires e == ref + t
    ensures Unescape(e) == [c] + Unescape(t)
  {
    assert e[..|ref|] == ref && e[|ref|..] == t;
    assert !StartsWith(e, "&amp;") by {
      assert e[1] == ref[1] && ref[1] != 'a';
    }
    if ref != "&lt;" {
      assert !StartsWith(e, "&lt;") by { assert e[1] == ref[1] && ref[1] != 'l'; }
      if ref != "&gt;" {
        assert !StartsWith(e, "&gt;") by { assert e[1] == ref[1] && ref[1] != 'g'; }
        if ref != "&quot;" {
          assert !StartsWith(e, "&quot;") by { assert e[1] == ref[1] && ref[1] != 'q'; }
        }
      }
    }
  }

  /** Escaping loses nothing: the escaped text decodes back to the original. */
  lemma {:induction false} UnescapeEscape(s: string)
    ensures Unescape(Escape(s)) == s
  {
    if s != "" {
      UnescapeEscape(s[1..]);
      UnescapeStep(s[0], Escape(s[1..]));
      assert [s[0]] + s[1..] == s;
    }
  }

  // ---------------------------------------------------------------- numbers

  /** `round(a / b)` of an exact quotient: the nearest integer, ties to even. */
  function RoundHalfEven(a: int, b: int): (r: int)
    requires b > 0
    ensures -b <= 2 * (a - r * b) <= b
    ensures (2 * (a - r * b) == b || 2 * (a - r * b) == -b) ==> r % 2 == 0
  {
    var q, m := a / b, a % b;
    assert a - q * b == m;
    if 2 * m < b then q
    else if 2 * m > b then
      assert a - (q + 1) * b == m - b;
      q + 1
    else if q % 2 == 0 then q
    else
      assert a - (q + 1) * b == m - b;
      q + 1
  }

  /** The two properties in RoundHalfEven's contract single out its result. */
  lemma RoundHalfEvenUnique(a: int, b: int, n: int)
    requires b > 0
    requires -b <= 2 * (a - n * b) <= b
    requires (2 * (a - n * b) == b || 2 * (a - n * b) == -b) ==> n % 2 == 0
    ensures n == RoundHalfEven(a, b)
  {
    var r := RoundHalfEven(a, b);
    var d := n - r;
    DistributeRight(r, d, b);
    SmallMultiple(d, b);
    NearestIsPinned(2 * (a - r * b), 2 * (a - n * b), d * b, b, d, r, n);
  }

  lemma DistributeRight(r: int, d: int, b: int)
    ensures (r + d) * b == r * b + d * b
  {
  }

  /** Two integers `r` and `n = r + d` that both lie within half a step `b` of the
      same point, with ties broken towards even, are equal; `p` stands for `d * b`. */
  lemma NearestIsPinned(x: int, y: int, p: int, b: int, d: int, r: int, n: int)
    requires b > 0 && -b <= x <= b && -b <= y <= b
    requires y == x - 2 * p && n == r + d
    requires d >= 2 ==> p >= 2 * b
    requires d <= -2 ==> p <= -2 * b
    requires d == 1 ==> p == b
    requires d == -1 ==> p == -b
    requires (x == b || x == -b) ==> r % 2 == 0
    requires (y == b || y == -b) ==> n % 2 == 0
    ensures d == 0
  {
  }

  /** Rounding keeps the quotient at or above a bound the exact quotient reaches. */
  lemma RoundHalfEvenAtLeast(a: int, b: int, lo: int)
    requires b > 0 && lo * b <= a
    ensures lo <= RoundHalfEven(a, b)
  {
    var d := lo - RoundHalfEven(a, b);
    assert a - RoundHalfEven(a, b) * b == (a - lo * b) + d * b;
    SmallMultiple(d, b);
  }

  /** Rounding keeps the quotient at or below a bound the exact quotient stays under. */
  lemma RoundHalfEvenAtMost(a: int, b: int, hi: int)
    requires b > 0 && a <= hi * b
    ensures RoundHalfEven(a, b) <= hi
  {
    var e := RoundHalfEven(a, b) - hi;
    assert a - RoundHalfEven(a, b) * b == (a - hi * b) - e * b;
    SmallMultiple(e, b);
  }

  lemma SmallMultiple(d: int, b: int)
    requires b > 0
    ensures d >= 2 ==> d * b >= 2 * b
    ensures d <= -2 ==> d * b <= -2 * b
    ensures d == 1 ==> d * b == b
    ensures d == -1 ==> d * b == -b
  {
    if d >= 2 {
      assert d * b == 2 * b + (d - 2) * b;
    } else if d <= -2 {
      assert d * b == -2 * b - (-d - 2) * b;
    }
  }

  /** `int(x)` of a float: truncation toward zero. */
  function TruncToInt(x: real): (r: int)
    ensures x >= 0.0 ==> 0 <= r && r as real <= x < r as real + 1.0
    ensures x < 0.0 ==> r <= 0 && r as real - 1.0 < x <= r as real
  {
    if x >= 0.0 then x.Floor else -((-x).Floor)
  }
}
