/**
 * The few JavaScript string primitives the application relies on:
 * String.prototype.trim, `length` counted in UTF-16 code units, indexOf and
 * lastIndexOf for one character, an ASCII toLowerCase, truthiness of an
 * optional string, and the decimal rendering of a non-negative integer (`${n}`).
 */
module JsStrings {
  import opened Common

  /** ECMAScript WhiteSpace and LineTerminator code points: the set removed
      by trim() and matched by the regular-expression class \s. */
  predicate IsWhitespace(c: char) {
    || c == ' ' || c == '\t' || c == '\n' || c == '\r'
    || c as int == 0x0B || c as int == 0x0C
    || c as int == 0xA0 || c as int == 0x1680
    || (0x2000 <= c as int <= 0x200A)
    || c as int == 0x2028 || c as int == 0x2029
    || c as int == 0x202F || c as int == 0x205F
    || c as int == 0x3000 || c as int == 0xFEFF
  }

  /** JavaScript truthiness of a value that is either undefined/null or a string. */
  predicate Truthy(v: Option<string>) {
    v.Some? && v.value != ""
  }

  /** `v || fallback` for a value that is either undefined/null or a string. */
  function OrElse(v: Option<string>, fallback: string): string {
    if Truthy(v) then v.value else fallback
  }

  /** Drops leading whitespace: what remains is a suffix that starts with a non-whitespace character. */
  function TrimStart(s: string): (r: string)
    ensures |r| <= |s| && r == s[|s| - |r|..]
    ensures forall i :: 0 <= i < |s| - |r| ==> IsWhitespace(s[i])
    ensures r == [] || !IsWhitespace(r[0])
  {
    if s != [] && IsWhitespace(s[0]) then TrimStart(s[1..]) else s
  }

  /** Drops trailing whitespace: what remains is a prefix that ends with a non-whitespace character. */
  function TrimEnd(s: string): (r: string)
    ensures |r| <= |s| && r == s[..|r|]
    ensures forall i :: |r| <= i < |s| ==> IsWhitespace(s[i])
    ensures r == [] || !IsWhitespace(r[|r| - 1])
  {
    if s != [] && IsWhitespace(s[|s| - 1]) then TrimEnd(s[..|s| - 1]) else s
  }

  /** r is s[lo..lo + |r|] and every character of s outside that slice is whitespace. */
  ghost predicate IsWhitespaceStrippedSlice(s: string, r: string, lo: int) {
    && 0 <= lo <= |s| - |r|
    && r == s[lo..lo + |r|]
    && (forall i :: 0 <= i < lo ==> IsWhitespace(s[i]))
    && (forall i :: lo + |r| <= i < |s| ==> IsWhitespace(s[i]))
  }

  /** String.prototype.trim: the input without its leading and trailing
      whitespace. The result is a slice of the input with only whitespace
      around it; it is empty exactly when the input is all whitespace, and
      otherwise starts and ends with a character that is not whitespace. */
  function Trim(s: string): (r: string)
    ensures |r| <= |s|
    ensures exists lo :: IsWhitespaceStrippedSlice(s, r, lo)
    ensures r == [] <==> forall i :: 0 <= i < |s| ==> IsWhitespace(s[i])
    ensures r != [] ==> !IsWhitespace(r[0]) && !IsWhitespace(r[|r| - 1])
  {
    var t := TrimStart(s);
    StripBothEnds(s, t, TrimEnd(t));
    TrimEnd(t)
  }

  /** Stripping leading whitespace from s to get t, then trailing whitespace
      from t to get r, leaves r as a slice of s with only whitespace around it. */
  lemma StripBothEnds(s: string, t: string, r: string)
    requires |t| <= |s| && t == s[|s| - |t|..]
    requires forall i :: 0 <= i < |s| - |t| ==> IsWhitespace(s[i])
    requires |r| <= |t| && r == t[..|r|]
    requires forall i :: |r| <= i < |t| ==> IsWhitespace(t[i])
    requires t == [] || !IsWhitespace(t[0])
    requires r == [] || !IsWhitespace(r[|r| - 1])
    ensures IsWhitespaceStrippedSlice(s, r, |s| - |t|)
    ensures r == [] <==> forall i :: 0 <= i < |s| ==> IsWhitespace(s[i])
    ensures r != [] ==> !IsWhitespace(r[0]) && !IsWhitespace(r[|r| - 1])
  {
    var lo := |s| - |t|;
    forall i | lo + |r| <= i < |s| ensures IsWhitespace(s[i]) {
      assert s[i] == t[i - lo];
    }
    if t != [] {
      assert s[lo] == t[0];
    }
    if r != [] {
      assert r[0] == t[0];
    }
  }

  /** String.prototype.length: the number of UTF-16 code units, two for a
      character outside the Basic Multilingual Plane and one for any other. */
  function Utf16Length(s: string): (n: nat)
    ensures |s| <= n <= 2 * |s|
  {
    if s == [] then 0
    else Utf16Length(s[..|s| - 1]) + (if s[|s| - 1] as int >= 0x1_0000 then 2 else 1)
  }

  /** One character is two code units when it lies outside the Basic
      Multilingual Plane (a surrogate pair) and one otherwise. */
  lemma Utf16LengthOfChar(c: char)
    ensures Utf16Length([c]) == if c as int >= 0x1_0000 then 2 else 1
  {
    assert [c][..0] == [];
  }

  /** The code units of a concatenation are those of its parts: with
      Utf16LengthOfChar this fixes the length of every string. */
  lemma {:induction false} Utf16LengthConcat(a: string, b: string)
    ensures Utf16Length(a + b) == Utf16Length(a) + Utf16Length(b)
    decreases |b|
  {
    if b == [] {
      assert a + b == a;
    } else {
      var init := b[..|b| - 1];
      assert (a + b)[..|a + b| - 1] == a + init;
      assert (a + b)[|a + b| - 1] == b[|b| - 1];
      Utf16LengthConcat(a, init);
    }
  }

  /** "a" followed by an emoji is three code units long, as `.length` reports. */
  lemma Utf16LengthOfMixedText(c: char)
    requires c as int >= 0x1_0000
    ensures Utf16Length(['a', c]) == 3
  {
    assert ['a', c] == ['a'] + [c];
    Utf16LengthConcat(['a'], [c]);
    Utf16LengthOfChar('a');
    Utf16LengthOfChar(c);
  }

  /** A string of Basic Multilingual Plane characters only has one code unit per character. */
  lemma {:induction false} Utf16LengthOfBmp(s: string)
    requires forall i :: 0 <= i < |s| ==> s[i] as int < 0x1_0000
    ensures Utf16Length(s) == |s|
  {
    if s != [] {
      var init := s[..|s| - 1];
      assert forall i :: 0 <= i < |init| ==> init[i] == s[i];
      Utf16LengthOfBmp(init);
    }
  }

  /** String.prototype.lastIndexOf for one character: the last index of c in s, or -1. */
  function LastIndexOf(s: string, c: char): (r: int)
    ensures -1 <= r < |s|
    ensures r >= 0 ==> s[r] == c
    ensures forall k :: r < k < |s| ==> s[k] != c
  {
    if s == [] then -1
    else if s[|s| - 1] == c then |s| - 1
    else LastIndexOf(s[..|s| - 1], c)
  }

  /** String.prototype.lastIndexOf for one character with a start index:
      the last index of c at or before `from`, or -1. */
  function LastIndexOfFrom(s: string, c: char, from: int): (r: int)
    requires -1 <= from < |s|
    ensures -1 <= r <= from
    ensures r >= 0 ==> s[r] == c
    ensures forall k :: r < k <= from ==> s[k] != c
    decreases from + 1
  {
    if from < 0 then -1
    else if s[from] == c then from
    else LastIndexOfFrom(s, c, from - 1)
  }

  /** String.prototype.indexOf for one character: the first index of c in s, or -1. */
  function IndexOf(s: string, c: char): (r: int)
    ensures -1 <= r < |s|
    ensures r >= 0 ==> s[r] == c
    ensures forall k :: 0 <= k < |s| && (r < 0 || k < r) ==> s[k] != c
  {
    if s == [] then -1
    else if s[0] == c then 0
    else var r := IndexOf(s[1..], c); if r < 0 then -1 else r + 1
  }

  /** LastIndexOf is determined by where c occurs. */
  lemma LastIndexOfIs(s: string, c: char, r: int)
    requires -1 <= r < |s|
    requires r >= 0 ==> s[r] == c
    requires forall k :: r < k < |s| ==> s[k] != c
    ensures LastIndexOf(s, c) == r
  {
  }

  /** ASCII lower-casing of one character. */
  function LowerChar(c: char): char {
    if 'A' <= c <= 'Z' then (c as int + 32) as char else c
  }

  /** toLowerCase restricted to ASCII letters; every other character is kept. */
  function ToLowerAscii(s: string): (r: string)
    ensures |r| == |s|
    ensures forall i :: 0 <= i < |s| ==> r[i] == LowerChar(s[i])
  {
    seq(|s|, i requires 0 <= i < |s| => LowerChar(s[i]))
  }

  predicate IsDigit(c: char) {
    '0' <= c <= '9'
  }

  function DigitValue(c: char): (d: nat)
    requires IsDigit(c)
    ensures d < 10
  {
    c as int - '0' as int
  }

  function DigitChar(d: nat): (c: char)
    requires d < 10
    ensures IsDigit(c) && DigitValue(c) == d
  {
    ('0' as int + d) as char
  }

  /** The decimal text of a non-negative integer, as `${n}` renders it:
      non-empty, digits only, and no leading zero. */
  function NatToDecimal(n: nat): (r: string)
    ensures r != []
    ensures forall i :: 0 <= i < |r| ==> IsDigit(r[i])
    ensures |r| > 1 ==> r[0] != '0'
  {
    if n < 10 then [DigitChar(n)] else NatToDecimal(n / 10) + [DigitChar(n % 10)]
  }

  /** The value of a string of decimal digits (the inverse of NatToDecimal). */
  function DecimalValue(s: string): nat
    requires forall i :: 0 <= i < |s| ==> IsDigit(s[i])
  {
    if s == [] then 0 else 10 * DecimalValue(s[..|s| - 1]) + DigitValue(s[|s| - 1])
  }

  /** Rendering a timestamp in decimal loses nothing: reading the text back gives the number. */
  lemma {:induction false} DecimalRoundTrip(n: nat)
    ensures DecimalValue(NatToDecimal(n)) == n
  {
    if n >= 10 {
      var prefix := NatToDecimal(n / 10);
      var r := prefix + [DigitChar(n % 10)];
      assert r[..|r| - 1] == prefix;
      DecimalRoundTrip(n / 10);
    }
  }
}
