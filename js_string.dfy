/**
 * The JavaScript string built-ins the chat components rely on, as functions over
 * `string` (a sequence of characters): `trim`, `slice`, `split(..)[0]`,
 * `split(..).pop()`, `startsWith`, `charAt`, `toUpperCase`, and the decimal text of
 * a non-negative integer that a template literal produces.
 */
module JsString {
  import opened Wrappers

  // ---------------------------------------------------------------------------
  // trim
  // ---------------------------------------------------------------------------

  /** The characters `String.prototype.trim` removes: ECMAScript WhiteSpace (TAB, VT,
      FF, ZWNBSP and the Unicode space separators) and LineTerminator (LF, CR, LS, PS). */
  predicate IsWhiteSpace(c: char) {
    || c == '\t' || c == '\U{000B}' || c == '\U{000C}' || c == '\U{FEFF}'
    || c == ' ' || c == '\U{00A0}' || c == '\U{1680}' || ('\U{2000}' <= c <= '\U{200A}')
    || c == '\U{202F}' || c == '\U{205F}' || c == '\U{3000}'
    || c == '\n' || c == '\r' || c == '\U{2028}' || c == '\U{2029}'
  }

  /** Every character of `s` is white space (so `s.trim()` is the falsy `''`). */
  predicate IsBlank(s: string) {
    forall i | 0 <= i < |s| :: IsWhiteSpace(s[i])
  }

  /** A non-empty string that neither starts nor ends with white space. */
  predicate IsTrimmed(s: string) {
    s != [] && !IsWhiteSpace(s[0]) && !IsWhiteSpace(s[|s| - 1])
  }

  /** The length of the white-space run at the start of `s`. */
  function LeadingWhiteSpace(s: string): (n: nat)
    ensures n <= |s|
    ensures IsBlank(s[..n])
    ensures n < |s| ==> !IsWhiteSpace(s[n])
    decreases |s|
  {
    if |s| > 0 && IsWhiteSpace(s[0]) then
      var m := LeadingWhiteSpace(s[1..]);
      assert s[..1 + m] == [s[0]] + s[1..][..m];
      1 + m
    else 0
  }

  /** The length of the white-space run at the end of `s`. */
  function TrailingWhiteSpace(s: string): (n: nat)
    ensures n <= |s|
    ensures IsBlank(s[|s| - n..])
    ensures n < |s| ==> !IsWhiteSpace(s[|s| - n - 1])
    decreases |s|
  {
    if |s| > 0 && IsWhiteSpace(s[|s| - 1]) then
      var init := s[..|s| - 1];
      var m := TrailingWhiteSpace(init);
      assert s[|s| - (1 + m)..] == init[|init| - m..] + [s[|s| - 1]];
      1 + m
    else 0
  }

  /** `s.trim()`: the part of `s` between its leading and its trailing white space.
      The three clauses determine the result uniquely. */
  function Trim(s: string): (r: string)
    ensures exists i, j :: 0 <= i <= j <= |s| && r == s[i..j] && IsBlank(s[..i]) && IsBlank(s[j..])
    ensures r == [] <==> IsBlank(s)
    ensures r != [] ==> IsTrimmed(r)
  {
    var i := LeadingWhiteSpace(s);
    if i == |s| then
      assert s[..i] == s && s[i..i] == [] && s[i..] == [];
      []
    else
      var rest := s[i..];
      var k := TrailingWhiteSpace(rest);
      var j := |s| - k;
      assert rest[0] == s[i];
      assert rest[|rest| - k..] == s[j..];
      assert !IsBlank(rest) && rest[0..] == rest;
      assert k < |rest|;
      assert rest[|rest| - k - 1] == s[j - 1];
      assert s[i..j][0] == s[i] && s[i..j][j - i - 1] == s[j - 1];
      assert !IsBlank(s) by { assert !IsWhiteSpace(s[i]); }
      s[i..j]
  }

  /** Trimming an already trimmed string changes nothing. */
  lemma TrimIdempotent(s: string)
    ensures Trim(Trim(s)) == Trim(s)
  {
    var r := Trim(s);
    if r != [] {
      var n := LeadingWhiteSpace(r);
      var m := TrailingWhiteSpace(r);
      assert r[n..][..|r[n..]| - m] == r;
    }
  }

  /** The JavaScript test `s.trim() && …`: the trimmed text when it is truthy, that is,
      when `s` holds any character that is not white space. */
  function TrimmedIfNotBlank(s: string): (r: Option<string>)
    ensures r.None? <==> IsBlank(s)
    ensures r.Some? ==> r.value == Trim(s) && IsTrimmed(r.value)
  {
    var t := Trim(s);
    if t == [] then None else Some(t)
  }

  // ---------------------------------------------------------------------------
  // slice, startsWith, charAt
  // ---------------------------------------------------------------------------

  /** `s.slice(0, p)` for a non-negative offset `p` (an offset past the end is clamped). */
  function SliceTo(s: string, p: nat): (r: string)
    ensures |r| == (if p <= |s| then p else |s|)
    ensures r == s[..|r|]
  {
    if p <= |s| then s[..p] else s
  }

  /** `s.slice(p)` for a non-negative offset `p` (an offset past the end gives `''`). */
  function SliceFrom(s: string, p: nat): (r: string)
    ensures |r| == (if p <= |s| then |s| - p else 0)
    ensures r == s[|s| - |r|..]
  {
    if p <= |s| then s[p..] else []
  }

  /** The two slices at one offset put back together give the whole string. */
  lemma SlicesJoin(s: string, p: nat)
    ensures SliceTo(s, p) + SliceFrom(s, p) == s
  {
  }

  /** `s.startsWith(prefix)`. */
  predicate StartsWith(s: string, prefix: string) {
    |prefix| <= |s| && s[..|prefix|] == prefix
  }

  /** `s.charAt(i)`: the one-character string at `i`, or `''` past the end. */
  function CharAt(s: string, i: nat): (r: string)
    ensures i < |s| ==> r == [s[i]]
    ensures i >= |s| ==> r == []
  {
    if i < |s| then [s[i]] else []
  }

  // ---------------------------------------------------------------------------
  // split
  // ---------------------------------------------------------------------------

  /** Where the text after the last `sep` at or before offset `p` starts, given that
      `s[p..]` holds no `sep`. */
  function LastPartStart(s: string, sep: char, p: nat): (k: nat)
    requires p <= |s| && sep !in s[p..]
    ensures k <= p
    ensures sep !in s[k..]
    ensures k == 0 || s[k - 1] == sep
    decreases p
  {
    if p == 0 || s[p - 1] == sep then p
    else
      assert s[p - 1..] == [s[p - 1]] + s[p..];
      LastPartStart(s, sep, p - 1)
  }

  /** `s.split(sep).pop()`: the text after the last `sep`, or all of `s` when `sep`
      does not occur (`pop` of a `split` result is never `undefined`). */
  function LastSplitPart(s: string, sep: char): (r: string)
    ensures |r| <= |s| && r == s[|s| - |r|..]
    ensures sep !in r
    ensures |r| == |s| || s[|s| - |r| - 1] == sep
  {
    s[LastPartStart(s, sep, |s|)..]
  }

  /** `s.split(sep)[0]`: the text before the first `sep`, or all of `s` when `sep`
      does not occur. */
  function FirstSplitPart(s: string, sep: char): (r: string)
    ensures |r| <= |s| && r == s[..|r|]
    ensures sep !in r
    ensures |r| == |s| || s[|r|] == sep
    decreases |s|
  {
    if |s| == 0 then []
    else if s[0] == sep then []
    else [s[0]] + FirstSplitPart(s[1..], sep)
  }

  /** The last part of `a + sep + b` is `b` when `b` holds no `sep`. */
  lemma LastSplitPartAfterSeparator(a: string, sep: char, b: string)
    requires sep !in b
    ensures LastSplitPart(a + [sep] + b, sep) == b
  {
    var s := a + [sep] + b;
    var r := LastSplitPart(s, sep);
    assert s[|a|] == sep;
    assert |r| == |b|;
    assert r == s[|s| - |b|..] == b;
  }

  /** The first part of `a + sep + b` is `a` when `a` holds no `sep`. */
  lemma FirstSplitPartBeforeSeparator(a: string, sep: char, b: string)
    requires sep !in a
    ensures FirstSplitPart(a + [sep] + b, sep) == a
  {
    var s := a + [sep] + b;
    var r := FirstSplitPart(s, sep);
    assert s[|a|] == sep;
    assert |r| == |a|;
    assert r == s[..|a|] == a;
  }

  // ---------------------------------------------------------------------------
  // Numbers in template literals
  // ---------------------------------------------------------------------------

  predicate IsDigit(c: char) {
    '0' <= c <= '9'
  }

  predicate IsDecimal(s: string) {
    forall i | 0 <= i < |s| :: IsDigit(s[i])
  }

  function DigitChar(d: nat): (c: char)
    requires d < 10
    ensures IsDigit(c)
  {
    ('0' as int + d) as char
  }

  /** `${n}` for a non-negative integer `n`: its decimal digits, with no leading zero. */
  function DecimalString(n: nat): (r: string)
    ensures r != [] && IsDecimal(r)
    ensures r[0] == '0' <==> n == 0
    decreases n
  {
    if n < 10 then [DigitChar(n)] else DecimalString(n / 10) + [DigitChar(n % 10)]
  }

  /** The number a string of decimal digits denotes. */
  function DecimalValue(s: string): nat
    requires IsDecimal(s)
    decreases |s|
  {
    if s == [] then 0 else 10 * DecimalValue(s[..|s| - 1]) + (s[|s| - 1] as int - '0' as int)
  }

  /** Reading back the decimal text of `n` gives `n`. */
  lemma {:induction false} DecimalRoundTrip(n: nat)
    ensures DecimalValue(DecimalString(n)) == n
    decreases n
  {
    var s := DecimalString(n);
    if n >= 10 {
      DecimalRoundTrip(n / 10);
      assert s[..|s| - 1] == DecimalString(n / 10);
    } else {
      assert s[..|s| - 1] == [];
    }
  }

  // ---------------------------------------------------------------------------
  // toUpperCase
  // ---------------------------------------------------------------------------

  /** The upper-case form of one character, for the Latin-1 range: a-z and the
      accented small letters map to their capitals, `ß` to "SS", `µ` to Greek
      capital mu, `ÿ` to `Ÿ`. Every other character is kept as it is. */
  function UpperChar(c: char): (r: string)
    ensures 'a' <= c <= 'z' ==> r == [(c as int - 32) as char]
    ensures c as int < 0x80 && !('a' <= c <= 'z') ==> r == [c]
    ensures 1 <= |r| <= 2
  {
    if 'a' <= c <= 'z' || ('\U{E0}' <= c <= '\U{FE}' && c != '\U{F7}') then [(c as int - 32) as char]
    else if c == '\U{DF}' then "SS"
    else if c == '\U{B5}' then ['\U{039C}']
    else if c == '\U{FF}' then ['\U{0178}']
    else [c]
  }

  /** `s.toUpperCase()`, character by character. */
  function ToUpperCase(s: string): (r: string)
    ensures |s| <= |r| <= 2 * |s|
    decreases |s|
  {
    if s == [] then [] else UpperChar(s[0]) + ToUpperCase(s[1..])
  }

  /** Upper-casing a one-character string is that character's upper-case form, so with
      `ToUpperCaseAppend` the string is upper-cased character by character. */
  lemma ToUpperCaseOfChar(c: char)
    ensures ToUpperCase([c]) == UpperChar(c)
  {
    assert [c][1..] == [];
  }

  lemma {:induction false} ToUpperCaseAppend(a: string, b: string)
    ensures ToUpperCase(a + b) == ToUpperCase(a) + ToUpperCase(b)
    decreases |a|
  {
    if a == [] {
      assert a + b == b;
    } else {
      assert (a + b)[0] == a[0];
      assert (a + b)[1..] == a[1..] + b;
      ToUpperCaseAppend(a[1..], b);
    }
  }

  /** The upper-case form of a character is its own upper-case form. */
  lemma UpperCharIdempotent(c: char)
    ensures ToUpperCase(UpperChar(c)) == UpperChar(c)
  {
    var u := UpperChar(c);
    if |u| == 1 {
      assert ToUpperCase(u) == UpperChar(u[0]) + ToUpperCase([]);
    } else {
      assert u == "SS";
      assert ToUpperCase(u) == UpperChar(u[0]) + ToUpperCase(u[1..]);
    }
  }

  /** Upper-casing an upper-cased string changes nothing. */
  lemma {:induction false} ToUpperCaseIdempotent(s: string)
    ensures ToUpperCase(ToUpperCase(s)) == ToUpperCase(s)
    decreases |s|
  {
    if s != [] {
      ToUpperCaseAppend(UpperChar(s[0]), ToUpperCase(s[1..]));
      UpperCharIdempotent(s[0]);
      ToUpperCaseIdempotent(s[1..]);
    }
  }

}
