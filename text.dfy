/**
 * The handful of Python string operations the billing code relies on:
 * decimal formatting and parsing of non-negative integers (`f"{n:04d}"`,
 * `int(s)`), `str.split`, `str.replace`, `str.strip`, `str.lower` and the
 * substring test `sub in s`.
 */
module Text {
  import opened Wrappers

  predicate IsDigit(c: char) {
    '0' <= c <= '9'
  }

  predicate AllDigits(s: string) {
    forall i :: 0 <= i < |s| ==> IsDigit(s[i])
  }

  function DigitChar(d: nat): (c: char)
    requires d < 10
    ensures IsDigit(c)
  {
    (48 + d) as char
  }

  function DigitValue(c: char): (d: nat)
    requires IsDigit(c)
    ensures d < 10
  {
    c as int - 48
  }

  /** The decimal text of `n` with no leading zeros: Python's `str(n)` for n >= 0. */
  function Decimal(n: nat): (s: string)
    ensures |s| >= 1 && AllDigits(s)
    decreases n
  {
    if n < 10 then [DigitChar(n)] else Decimal(n / 10) + [DigitChar(n % 10)]
  }

  /** The number a string of decimal digits denotes (leading zeros allowed). */
  function DecimalValue(s: string): nat
    requires AllDigits(s)
  {
    if s == [] then 0 else DecimalValue(s[..|s| - 1]) * 10 + DigitValue(s[|s| - 1])
  }

  function Zeros(k: nat): (z: string)
    ensures |z| == k && AllDigits(z)
  {
    seq(k, _ => '0')
  }

  /** Left-pads a digit string with zeros to at least `width` characters, as `f"{n:0{width}d}"` does. */
  function ZeroPad(s: string, width: nat): (r: string)
    ensures |r| == if |s| >= width then |s| else width
    ensures AllDigits(s) ==> AllDigits(r)
  {
    if |s| >= width then s else Zeros(width - |s|) + s
  }

  /** Python's `int(s)` on text made of ASCII digits only; anything else raises `ValueError` (None). */
  function ParseInt(s: string): (r: Option<nat>)
    ensures r.Some? <==> |s| > 0 && AllDigits(s)
  {
    if |s| > 0 && AllDigits(s) then Some(DecimalValue(s)) else None
  }

  lemma {:induction false} DecimalRoundTrip(n: nat)
    ensures DecimalValue(Decimal(n)) == n
    decreases n
  {
    if n >= 10 {
      var s := Decimal(n);
      assert s[..|s| - 1] == Decimal(n / 10);
      DecimalRoundTrip(n / 10);
    }
  }

  lemma {:induction false} ZerosValue(k: nat)
    ensures DecimalValue(Zeros(k)) == 0
  {
    if k > 0 {
      assert Zeros(k)[..k - 1] == Zeros(k - 1);
      ZerosValue(k - 1);
    }
  }

  /** Leading zeros do not change the value of a digit string. */
  lemma {:induction false} LeadingZerosValue(k: nat, s: string)
    requires AllDigits(s)
    ensures AllDigits(Zeros(k) + s)
    ensures DecimalValue(Zeros(k) + s) == DecimalValue(s)
    decreases |s|
  {
    var t := Zeros(k) + s;
    assert AllDigits(t) by {
      forall i | 0 <= i < |t| ensures IsDigit(t[i]) {
        if i >= k { assert t[i] == s[i - k]; }
      }
    }
    if s == [] {
      assert t == Zeros(k);
      ZerosValue(k);
    } else {
      assert t[..|t| - 1] == Zeros(k) + s[..|s| - 1];
      assert t[|t| - 1] == s[|s| - 1];
      LeadingZerosValue(k, s[..|s| - 1]);
    }
  }

  /** Formatting `n` zero-padded to any width and parsing it back with `int` gives `n`. */
  lemma PaddedRoundTrip(n: nat, width: nat)
    ensures ParseInt(ZeroPad(Decimal(n), width)) == Some(n)
  {
    var s := Decimal(n);
    DecimalRoundTrip(n);
    if |s| < width {
      LeadingZerosValue(width - |s|, s);
    }
  }

  function Pow10(k: nat): (p: nat)
    ensures p >= 1
  {
    if k == 0 then 1 else 10 * Pow10(k - 1)
  }

  /** A number below 10^width has at most `width` decimal digits, so padding it gives exactly `width` characters. */
  lemma {:induction false} DecimalFits(n: nat, width: nat)
    requires width >= 1 && n < Pow10(width)
    ensures |Decimal(n)| <= width
    ensures |ZeroPad(Decimal(n), width)| == width
    decreases n
  {
    if n >= 10 {
      assert width >= 2 && Pow10(width) == 10 * Pow10(width - 1);
      assert n / 10 < Pow10(width - 1);
      DecimalFits(n / 10, width - 1);
      assert |Decimal(n)| == |Decimal(n / 10)| + 1;
    }
  }

  // ---------------------------------------------------------------- prefixes and splitting

  predicate IsPrefix(p: string, s: string) {
    |p| <= |s| && s[..|p|] == p
  }

  /** `s.split(sep)[-1]` for a one-character separator: the text after the last `sep`. */
  function LastSegment(s: string, sep: char): (r: string)
    ensures |r| <= |s| && r == s[|s| - |r|..]
    ensures forall i :: 0 <= i < |r| ==> r[i] != sep
  {
    if s == [] then []
    else if s[|s| - 1] == sep then []
    else LastSegment(s[..|s| - 1], sep) + [s[|s| - 1]]
  }

  /** The last segment of `p + t` is `t` when `p` ends with the separator and `t` holds none. */
  lemma {:induction false} LastSegmentAfterSeparator(p: string, t: string, sep: char)
    requires |p| > 0 && p[|p| - 1] == sep
    requires forall i :: 0 <= i < |t| ==> t[i] != sep
    ensures LastSegment(p + t, sep) == t
    decreases |t|
  {
    if t == [] {
      assert p + t == p;
    } else {
      assert (p + t)[..|p + t| - 1] == p + t[..|t| - 1];
      LastSegmentAfterSeparator(p, t[..|t| - 1], sep);
    }
  }

  /** `s.split(sep)[0]`: the text before the first occurrence of `sep` (all of `s` if none). */
  function FirstField(s: string, sep: string): (r: string)
    requires |sep| > 0
    ensures IsPrefix(r, s)
    decreases |s|
  {
    if IsPrefix(sep, s) then []
    else if s == [] then []
    else [s[0]] + FirstField(s[1..], sep)
  }

  /** `s.replace(pat, "")`: every non-overlapping occurrence of `pat`, scanning left to right, removed. */
  function RemoveAll(s: string, pat: string): string
    requires |pat| > 0
    decreases |s|
  {
    if IsPrefix(pat, s) then RemoveAll(s[|pat|..], pat)
    else if s == [] then []
    else [s[0]] + RemoveAll(s[1..], pat)
  }

  /** A field of digits followed by the separator `" - "` is the first field. */
  lemma {:induction false} FirstFieldOfDigits(d: string, rest: string)
    requires AllDigits(d)
    ensures FirstField(d + " - " + rest, " - ") == d
    decreases |d|
  {
    var s := d + " - " + rest;
    if d == [] {
      assert IsPrefix(" - ", s);
    } else {
      assert s[0] == d[0];
      assert !IsPrefix(" - ", s);
      assert s[1..] == d[1..] + " - " + rest;
      FirstFieldOfDigits(d[1..], rest);
    }
  }

  /** Removing a pattern that begins with a non-digit leaves a digit string unchanged. */
  lemma {:induction false} RemoveAllFromDigits(d: string, pat: string)
    requires |pat| > 0 && !IsDigit(pat[0])
    requires AllDigits(d)
    ensures RemoveAll(d, pat) == d
    decreases |d|
  {
    if d != [] {
      assert !IsPrefix(pat, d) by { assert d[0] != pat[0]; }
      RemoveAllFromDigits(d[1..], pat);
      assert [d[0]] + d[1..] == d;
    }
  }

  /** The longest run of digits at the start of `s`. */
  function LeadingDigits(s: string): (r: string)
    ensures AllDigits(r) && IsPrefix(r, s)
  {
    if s != [] && IsDigit(s[0]) then [s[0]] + LeadingDigits(s[1..]) else []
  }

  /** A text made of digits only is its own leading run of digits. */
  lemma {:induction false} LeadingDigitsOfDigits(s: string)
    requires AllDigits(s)
    ensures LeadingDigits(s) == s
    decreases |s|
  {
    if s != [] {
      LeadingDigitsOfDigits(s[1..]);
      assert [s[0]] + s[1..] == s;
    }
  }

  // ---------------------------------------------------------------- case and whitespace

  function LowerChar(c: char): char {
    if 'A' <= c <= 'Z' then (c as int + 32) as char else c
  }

  /** `s.lower()` on ASCII letters. */
  function Lower(s: string): (r: string)
    ensures |r| == |s|
  {
    seq(|s|, i requires 0 <= i < |s| => LowerChar(s[i]))
  }

  /** `sub in s`: `sub` occurs somewhere in `s` as a contiguous block. */
  predicate Contains(s: string, sub: string)
    decreases |s|
  {
    IsPrefix(sub, s) || (s != [] && Contains(s[1..], sub))
  }

  lemma ContainsEmpty(s: string)
    ensures Contains(s, "")
  {
    assert IsPrefix("", s);
  }

  /**
   * What Python's `str.isspace` accepts, and so what `str.strip` removes: the
   * controls from tab to carriage return and from U+001C to U+001F, the
   * blank, and the Unicode separators U+0085, U+00A0, U+1680, U+2000 to
   * U+200A, U+2028, U+2029, U+202F, U+205F and U+3000.
   */
  predicate IsSpace(c: char) {
    || '\t' <= c <= '\r'
    || '\U{1C}' <= c <= ' '
    || c == '\U{85}' || c == '\U{A0}' || c == '\U{1680}'
    || '\U{2000}' <= c <= '\U{200A}'
    || c == '\U{2028}' || c == '\U{2029}' || c == '\U{202F}' || c == '\U{205F}' || c == '\U{3000}'
  }

  function StripLeft(s: string): (r: string)
    ensures |r| <= |s| && r == s[|s| - |r|..]
    ensures r != [] ==> !IsSpace(r[0])
    ensures forall i :: 0 <= i < |s| - |r| ==> IsSpace(s[i])
  {
    if s != [] && IsSpace(s[0]) then StripLeft(s[1..]) else s
  }

  function StripRight(s: string): (r: string)
    ensures |r| <= |s| && r == s[..|r|]
    ensures r != [] ==> !IsSpace(r[|r| - 1])
    ensures forall i :: |r| <= i < |s| ==> IsSpace(s[i])
  {
    if s != [] && IsSpace(s[|s| - 1]) then StripRight(s[..|s| - 1]) else s
  }

  /** `s.strip()`: leading and trailing whitespace removed. */
  function Strip(s: string): string {
    StripRight(StripLeft(s))
  }

  /** The stripped text is empty exactly when the text is blank (only whitespace). */
  lemma StripEmptyIffBlank(s: string)
    ensures Strip(s) == [] <==> forall i :: 0 <= i < |s| ==> IsSpace(s[i])
  {
    var l := StripLeft(s);
    if Strip(s) == [] {
      assert l == [];
    } else {
      var r := Strip(s);
      assert r[|r| - 1] == l[|r| - 1];
      assert l[|r| - 1] == s[|s| - |l| + |r| - 1];
    }
  }
}
