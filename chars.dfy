/**
 * The character classes of Python's `re` as the Python code uses them, digit
 * strings, and the few `str` methods the entry's steps call.
 *
 * The newer variant runs under Python 3, whose `re` classifies `str` characters
 * by Unicode; the older one runs under Python 2.7 without `re.UNICODE`, where
 * `\s`, `\b` and IGNORECASE only know ASCII. `Mode` says which applies.
 */
module Chars {

  import opened Wrappers

  datatype Mode = Ascii | Unicode

  /** `\s`: ASCII whitespace, and in Unicode mode every character `str.isspace()` accepts. */
  predicate IsSpace(mode: Mode, c: char) {
    c == ' ' || c == '\t' || c == '\n' || c == '\r' || c == '\U{B}' || c == '\U{C}'
    || (mode == Unicode &&
        ('\U{1C}' <= c <= '\U{1F}' || c == '\U{85}' || c == '\U{A0}' || c == '\U{1680}'
         || '\U{2000}' <= c <= '\U{200A}' || c == '\U{2028}' || c == '\U{2029}'
         || c == '\U{202F}' || c == '\U{205F}' || c == '\U{3000}'))
  }

  /** `\d`, restricted to the ASCII digits. */
  predicate IsDigit(c: char) {
    '0' <= c <= '9'
  }

  predicate IsAsciiUpper(c: char) { 'A' <= c <= 'Z' }

  predicate IsAsciiLower(c: char) { 'a' <= c <= 'z' }

  /**
   * A character `\b` counts as part of a word: ASCII letters, digits and `_`;
   * in Unicode mode also the letters and numerals of Latin-1 (`str.isalnum()`
   * accepts the superscripts and the vulgar fractions), the letters of Latin
   * Extended-A/B and the Kelvin sign.
   */
  predicate IsWordChar(mode: Mode, c: char) {
    IsAsciiUpper(c) || IsAsciiLower(c) || IsDigit(c) || c == '_'
    || (mode == Unicode &&
        (c == '\U{AA}' || c == '\U{B5}' || c == '\U{BA}'
         || c == '\U{B2}' || c == '\U{B3}' || c == '\U{B9}' || '\U{BC}' <= c <= '\U{BE}'
         || ('\U{C0}' <= c <= '\U{24F}' && c != '\U{D7}' && c != '\U{F7}')
         || c == '\U{212A}'))
  }

  /**
   * The folding that IGNORECASE compares by: ASCII upper case to lower case and,
   * in Unicode mode, the four non-ASCII letters Python matches against ASCII
   * letters (U+0130 and U+0131 as `i`, U+017F as `s`, U+212A as `k`).
   */
  function Fold(mode: Mode, c: char): (f: char)
  {
    if IsAsciiUpper(c) then (c as int + 32) as char
    else if mode == Ascii then c
    else if c == '\U{130}' || c == '\U{131}' then 'i'
    else if c == '\U{17F}' then 's'
    else if c == '\U{212A}' then 'k'
    else c
  }

  /** Two strings of equal length that IGNORECASE treats as the same. */
  predicate EqualFolded(mode: Mode, a: string, b: string) {
    |a| == |b| && forall j :: 0 <= j < |a| ==> Fold(mode, a[j]) == Fold(mode, b[j])
  }

  /** `str.lower()` of one character: ASCII letters, the Kelvin sign and U+0130. */
  function LowerChar(c: char): (r: string)
    ensures IsAsciiUpper(c) ==> r == [(c as int + 32) as char]
    ensures !IsAsciiUpper(c) && c != '\U{212A}' && c != '\U{130}' ==> r == [c]
  {
    if IsAsciiUpper(c) then [(c as int + 32) as char]
    else if c == '\U{212A}' then ['k']
    else if c == '\U{130}' then ['i', '\U{307}']
    else [c]
  }

  /** `str.lower()`. */
  function Lower(s: string): (r: string)
    ensures |r| >= |s|
    ensures (forall j :: 0 <= j < |s| ==> s[j] != '\U{130}') ==>
              |r| == |s| && forall j :: 0 <= j < |s| ==> [r[j]] == LowerChar(s[j])
  {
    if s == [] then [] else LowerChar(s[0]) + Lower(s[1..])
  }

  /** `str.upper()` of one character, for the ASCII letters. */
  function Upper(c: char): (r: char)
    ensures IsAsciiLower(c) ==> r as int == c as int - 32
    ensures !IsAsciiLower(c) ==> r == c
  {
    if IsAsciiLower(c) then (c as int - 32) as char else c
  }

  /** A string of ASCII letters and digits is lowered by folding it, whatever the mode. */
  lemma LowerAscii(mode: Mode, s: string)
    requires forall j :: 0 <= j < |s| ==> IsAsciiUpper(s[j]) || IsAsciiLower(s[j]) || IsDigit(s[j])
    ensures |Lower(s)| == |s|
    ensures forall j :: 0 <= j < |s| ==> Lower(s)[j] == Fold(mode, s[j])
  {
    assert forall j :: 0 <= j < |s| ==> s[j] != '\U{130}';
    forall j | 0 <= j < |s|
      ensures Lower(s)[j] == Fold(mode, s[j])
    {
      assert [Lower(s)[j]] == LowerChar(s[j]);
    }
  }

  // ----- digit strings -----

  predicate AllDigits(s: string) {
    forall j :: 0 <= j < |s| ==> IsDigit(s[j])
  }

  function DigitChar(n: int): (c: char)
    requires 0 <= n < 10
    ensures IsDigit(c)
  {
    ('0' as int + n) as char
  }

  /** The number a string of decimal digits denotes, as `int()` reads it. */
  function Value(s: string): nat
    requires AllDigits(s)
  {
    if s == [] then 0 else Value(s[..|s| - 1]) * 10 + (s[|s| - 1] as int - '0' as int)
  }

  function Pow10(w: nat): (p: nat)
    ensures p >= 1
  {
    if w == 0 then 1 else 10 * Pow10(w - 1)
  }

  /** The shortest decimal rendering of n. */
  function Digits(n: nat): (s: string)
    ensures |s| >= 1 && AllDigits(s) && Value(s) == n
    ensures n < 10 ==> |s| == 1
  {
    if n < 10 then [DigitChar(n)]
    else
      var s := Digits(n / 10) + [DigitChar(n % 10)];
      assert s[..|s| - 1] == Digits(n / 10);
      s
  }

  function Zeros(k: nat): (s: string)
    ensures |s| == k && AllDigits(s)
  {
    if k == 0 then [] else Zeros(k - 1) + ['0']
  }

  /** n with leading zeros to at least w characters, as `%0wd` / `strftime` write it. */
  function Pad(n: nat, w: nat): (s: string)
    ensures AllDigits(s) && |s| >= w
  {
    var d := Digits(n);
    (if |d| < w then Zeros(w - |d|) else []) + d
  }

  /** Leading zeros do not change the value of a digit string. */
  lemma {:induction false} ValueLeadingZeros(k: nat, s: string)
    requires AllDigits(s)
    ensures AllDigits(Zeros(k) + s) && Value(Zeros(k) + s) == Value(s)
  {
    if s == [] {
      ZerosValue(k);
      assert Zeros(k) + s == Zeros(k);
    } else {
      var t := Zeros(k) + s;
      assert t[..|t| - 1] == Zeros(k) + s[..|s| - 1];
      ValueLeadingZeros(k, s[..|s| - 1]);
    }
  }

  lemma {:induction false} ZerosValue(k: nat)
    ensures Value(Zeros(k)) == 0
  {
    if k > 0 {
      assert Zeros(k)[..k - 1] == Zeros(k - 1);
      ZerosValue(k - 1);
    }
  }

  /** n below 10^w needs at most w digits. */
  lemma {:induction false} DigitsLength(n: nat, w: nat)
    requires 1 <= w && n < Pow10(w)
    ensures |Digits(n)| <= w
  {
    if n >= 10 {
      DigitsLength(n / 10, w - 1);
    }
  }

  /** Padding to w digits is undone by reading the digits back, and takes exactly w characters. */
  lemma PadValue(n: nat, w: nat)
    requires 1 <= w && n < Pow10(w)
    ensures |Pad(n, w)| == w && Value(Pad(n, w)) == n
  {
    DigitsLength(n, w);
    var d := Digits(n);
    ValueLeadingZeros(w - |d|, d);
    if |d| == w {
      assert Pad(n, w) == Zeros(0) + d;
    }
  }

  // ----- str methods -----

  /** s[i..] begins with p. */
  predicate HasAt(s: string, i: int, p: string) {
    0 <= i && i + |p| <= |s| && s[i..i + |p|] == p
  }

  predicate StartsWith(s: string, p: string) {
    HasAt(s, 0, p)
  }

  /** A concatenation holds its two parts where they were put. */
  lemma Concat(a: string, b: string)
    ensures StartsWith(a + b, a) && HasAt(a + b, |a|, b)
  {
    assert (a + b)[..|a|] == a;
    assert (a + b)[|a|..|a| + |b|] == b;
  }

  /** The first index at or after `from` where `sep` occurs. */
  function FindFrom(s: string, sep: string, from: nat): (r: int)
    requires |sep| > 0
    ensures r == -1 || from <= r <= |s| - |sep|
    ensures r != -1 ==> HasAt(s, r, sep)
    ensures forall j :: from <= j && (r == -1 || j < r) ==> !HasAt(s, j, sep)
    decreases |s| - from
  {
    if from + |sep| > |s| then -1
    else if s[from..from + |sep|] == sep then from
    else FindFrom(s, sep, from + 1)
  }

  /**
   * `s.split(sep)`, cut down to what `format_entry` reads: the text before the
   * first separator and, when there is one, the text between the first and the
   * second (what follows a second separator is dropped, as `items[1]` drops it).
   */
  function SplitFirstTwo(s: string, sep: string): (r: (string, Option<string>))
    requires |sep| > 0
    ensures r.1.None? <==> FindFrom(s, sep, 0) == -1
    ensures r.1.None? ==> r.0 == s
    ensures r.1.Some? ==> |r.0| + |sep| <= |s| && s == r.0 + sep + s[|r.0| + |sep|..]
                          && !Contains(r.0, sep)
                          && StartsWith(s[|r.0| + |sep|..], r.1.value)
                          && !Contains(r.1.value, sep)
    ensures r.1.Some? ==> FindFrom(s, sep, 0) == |r.0|
    ensures r.1.Some? ==> var rest := s[|r.0| + |sep|..];
                          (forall k :: 0 <= k < |r.1.value| ==> !HasAt(rest, k, sep))
                          && (r.1.value == rest || HasAt(rest, |r.1.value|, sep))
  {
    var i := FindFrom(s, sep, 0);
    if i == -1 then (s, None)
    else
      var rest := s[i + |sep|..];
      var j := FindFrom(rest, sep, 0);
      var second := if j == -1 then rest else rest[..j];
      NoOccurrenceInPrefix(s, sep, i);
      NoOccurrenceInPrefix(rest, sep, |second|);
      assert s == s[..i] + sep + rest;
      (s[..i], Some(second))
  }

  /** A prefix of s holds no separator when no separator starts before its end. */
  lemma NoOccurrenceInPrefix(s: string, sep: string, n: nat)
    requires |sep| > 0 && n <= |s|
    requires forall j :: 0 <= j < n ==> !HasAt(s, j, sep)
    ensures !Contains(s[..n], sep)
  {
    forall k | 0 <= k && k + |sep| <= n ensures !HasAt(s[..n], k, sep) {
      assert !HasAt(s, k, sep);
      assert s[..n][k..k + |sep|] == s[k..k + |sep|];
    }
  }

  /** Taking the first character off a slice followed by more text. */
  lemma ConsSlice(s: string, i: nat, p: nat, rest: string)
    requires i < p <= |s|
    ensures s[i..p] + rest == [s[i]] + (s[i + 1..p] + rest)
  {
    assert s[i..p] == [s[i]] + s[i + 1..p];
  }

  predicate Contains(s: string, p: string) {
    exists k :: 0 <= k && k + |p| <= |s| && HasAt(s, k, p)
  }

  /** `path.split('/')[-1]`: the text after the last slash. */
  function LastSegment(path: string): (name: string)
    ensures '/' !in name
    ensures |name| <= |path| && path[|path| - |name|..] == name
    ensures |name| < |path| ==> path[|path| - |name| - 1] == '/'
  {
    if path == [] then []
    else if path[|path| - 1] == '/' then []
    else LastSegment(path[..|path| - 1]) + [path[|path| - 1]]
  }
}
