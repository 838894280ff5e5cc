/**
 * The handful of JavaScript string operations the block relies on:
 * `trim`, `toLowerCase`, `includes`, number-to-string interpolation
 * (`${n}px`) and the `[...].filter(Boolean).join(' ')` idiom that builds
 * a class attribute, together with the readings that invert them
 * (a CSS integer with a unit, the token list of a class attribute).
 */
module Text {
  import opened Wrappers

  // ---------------------------------------------------------------------
  // Whitespace and trim
  // ---------------------------------------------------------------------

  /** ECMAScript WhiteSpace and LineTerminator code points, the set `trim` removes. */
  predicate IsWhitespace(c: char) {
    c == '\t' || c == '\n' || c == '\U{000B}' || c == '\U{000C}' || c == '\r' || c == ' '
    || c == '\U{00A0}' || c == '\U{1680}' || ('\U{2000}' <= c <= '\U{200A}')
    || c == '\U{2028}' || c == '\U{2029}' || c == '\U{202F}' || c == '\U{205F}'
    || c == '\U{3000}' || c == '\U{FEFF}'
  }

  /** Leading whitespace removed: `r` is the suffix of `s` after a run of whitespace. */
  function TrimStart(s: string): (r: string)
    ensures |r| <= |s| && r == s[|s| - |r|..]
    ensures forall i :: 0 <= i < |s| - |r| ==> IsWhitespace(s[i])
    ensures r != [] ==> !IsWhitespace(r[0])
    decreases |s|
  {
    if s != [] && IsWhitespace(s[0]) then TrimStart(s[1..]) else s
  }

  /** Trailing whitespace removed: `r` is the prefix of `s` before a run of whitespace. */
  function TrimEnd(s: string): (r: string)
    ensures |r| <= |s| && r == s[..|r|]
    ensures forall i :: |r| <= i < |s| ==> IsWhitespace(s[i])
    ensures r != [] ==> !IsWhitespace(r[|r| - 1])
    decreases |s|
  {
    if s != [] && IsWhitespace(s[|s| - 1]) then TrimEnd(s[..|s| - 1]) else s
  }

  /** `String.prototype.trim`. */
  function Trim(s: string): string {
    TrimEnd(TrimStart(s))
  }

  // ---------------------------------------------------------------------
  // Lower case and substring search
  // ---------------------------------------------------------------------

  function LowerChar(c: char): char {
    if 'A' <= c <= 'Z' then (c as int - 'A' as int + 'a' as int) as char else c
  }

  /** `String.prototype.toLowerCase`, on the ASCII letters. */
  function Lower(s: string): (r: string)
    ensures |r| == |s|
  {
    seq(|s|, i requires 0 <= i < |s| => LowerChar(s[i]))
  }

  /** `String.prototype.includes`: `pat` occurs in `s` at some position. */
  predicate Contains(s: string, pat: string)
    decreases |s|
  {
    pat <= s || (s != [] && Contains(s[1..], pat))
  }

  /** `pat` occurs in `s` starting at index `k`. */
  predicate OccursAt(s: string, pat: string, k: int) {
    0 <= k <= |s| - |pat| && s[k..k + |pat|] == pat
  }

  /** `Contains` agrees with a search for an explicit position. */
  lemma {:induction false} ContainsAt(s: string, pat: string)
    ensures Contains(s, pat) <==> exists k :: OccursAt(s, pat, k)
    decreases |s|
  {
    if pat <= s {
      assert OccursAt(s, pat, 0);
    } else if s == [] {
    } else {
      ContainsAt(s[1..], pat);
      if exists k :: OccursAt(s, pat, k) {
        var k :| OccursAt(s, pat, k);
        assert k != 0;
        assert OccursAt(s[1..], pat, k - 1);
      }
      if Contains(s[1..], pat) {
        var k :| OccursAt(s[1..], pat, k);
        assert OccursAt(s, pat, k + 1);
      }
    }
  }

  /** A leading character that cannot start `pat` does not change whether `pat` occurs. */
  lemma DropLeading(s: string, pat: string)
    requires s != [] && pat != [] && s[0] != pat[0]
    ensures Contains(s, pat) <==> Contains(s[1..], pat)
  {
    assert !(pat <= s);
  }

  /** A trailing character that cannot end `pat` does not change whether `pat` occurs. */
  lemma {:induction false} DropTrailing(s: string, c: char, pat: string)
    requires pat != [] && pat[|pat| - 1] != c
    ensures Contains(s + [c], pat) <==> Contains(s, pat)
    decreases |s|
  {
    assert (pat <= s + [c]) <==> (pat <= s) by {
      if pat <= s + [c] {
        assert pat == (s + [c])[..|pat|] == s[..|pat|];
      }
      if pat <= s {
        assert pat == s[..|pat|] == (s + [c])[..|pat|];
      }
    }
    if s != [] {
      assert (s + [c])[1..] == s[1..] + [c];
      DropTrailing(s[1..], c, pat);
    } else {
      assert !Contains([c][1..], pat);
    }
  }

  /**
   * Trimming does not change whether a pattern that neither starts nor ends with
   * whitespace occurs in the lower-cased text.
   */
  lemma {:induction false} TrimStartKeepsContains(s: string, pat: string)
    requires pat != [] && !IsWhitespace(pat[0])
    ensures Contains(Lower(TrimStart(s)), pat) <==> Contains(Lower(s), pat)
    decreases |s|
  {
    if s != [] && IsWhitespace(s[0]) {
      assert Lower(s)[1..] == Lower(s[1..]);
      DropLeading(Lower(s), pat);
      TrimStartKeepsContains(s[1..], pat);
    }
  }

  lemma {:induction false} TrimEndKeepsContains(s: string, pat: string)
    requires pat != [] && !IsWhitespace(pat[|pat| - 1])
    ensures Contains(Lower(TrimEnd(s)), pat) <==> Contains(Lower(s), pat)
    decreases |s|
  {
    if s != [] && IsWhitespace(s[|s| - 1]) {
      var init := s[..|s| - 1];
      assert Lower(s) == Lower(init) + [s[|s| - 1]];
      DropTrailing(Lower(init), s[|s| - 1], pat);
      TrimEndKeepsContains(init, pat);
    }
  }

  lemma TrimKeepsContains(s: string, pat: string)
    requires pat != [] && !IsWhitespace(pat[0]) && !IsWhitespace(pat[|pat| - 1])
    ensures Contains(Lower(Trim(s)), pat) <==> Contains(Lower(s), pat)
  {
    TrimEndKeepsContains(TrimStart(s), pat);
    TrimStartKeepsContains(s, pat);
  }

  /** Lower-casing twice is lower-casing once. */
  lemma LowerIdempotent(s: string)
    ensures Lower(Lower(s)) == Lower(s)
  {
  }

  // ---------------------------------------------------------------------
  // Integers in decimal, as `${n}` prints them
  // ---------------------------------------------------------------------

  predicate IsDigit(c: char) {
    '0' <= c <= '9'
  }

  predicate AllDigits(s: string) {
    forall i :: 0 <= i < |s| ==> IsDigit(s[i])
  }

  function DigitChar(d: nat): (c: char)
    requires d < 10
    ensures IsDigit(c)
  {
    ('0' as int + d) as char
  }

  function DigitValue(c: char): (d: nat)
    requires IsDigit(c)
    ensures d < 10
  {
    c as int - '0' as int
  }

  /** The decimal digits of `n`, most significant first, with no leading zero. */
  function NatToString(n: nat): (r: string)
    ensures r != [] && AllDigits(r)
    ensures |r| > 1 ==> r[0] != '0'
    decreases n
  {
    if n < 10 then [DigitChar(n)] else NatToString(n / 10) + [DigitChar(n % 10)]
  }

  /**
   * A number interpolated into a template literal (`${n}`), for integral
   * numbers with |n| < 10^21. From 10^21 on, JavaScript switches to
   * exponent form, and above 2^53 a JavaScript number is no longer an exact
   * integer. The range controls keep every printed value at 300 or below.
   */
  function IntToString(n: int): string {
    if n < 0 then "-" + NatToString(-n) else NatToString(n)
  }

  /** The value of a run of decimal digits. */
  function DigitsValue(s: string): nat
    requires AllDigits(s)
    decreases |s|
  {
    if s == [] then 0 else DigitsValue(s[..|s| - 1]) * 10 + DigitValue(s[|s| - 1])
  }

  /** Reading an optionally signed decimal integer, as a CSS integer is read. */
  function ReadInteger(s: string): (r: Option<int>)
    ensures r.Some? ==> s != []
  {
    if |s| > 1 && s[0] == '-' && AllDigits(s[1..]) then Some(0 - DigitsValue(s[1..]) as int)
    else if s != [] && AllDigits(s) then Some(DigitsValue(s))
    else None
  }

  lemma {:induction false} NatToStringValue(n: nat)
    ensures DigitsValue(NatToString(n)) == n
    decreases n
  {
    if n >= 10 {
      NatToStringValue(n / 10);
      var s := NatToString(n);
      assert s[..|s| - 1] == NatToString(n / 10);
    }
  }

  /** Printing an integer and reading it back gives the integer. */
  lemma IntToStringRoundTrip(n: int)
    ensures ReadInteger(IntToString(n)) == Some(n)
  {
    if n < 0 {
      NatToStringValue(-n);
      assert IntToString(n)[1..] == NatToString(-n);
    } else {
      NatToStringValue(n);
    }
  }

  /** A CSS length or time: the number followed by its unit (`30s`, `60px`). */
  function WithUnit(n: int, unit: string): string {
    IntToString(n) + unit
  }

  /** Reading a number with the given unit back; `None` when the unit is missing or the number malformed. */
  function ReadWithUnit(s: string, unit: string): Option<int> {
    if |unit| <= |s| && s[|s| - |unit|..] == unit then ReadInteger(s[..|s| - |unit|]) else None
  }

  lemma WithUnitRoundTrip(n: int, unit: string)
    ensures ReadWithUnit(WithUnit(n, unit), unit) == Some(n)
  {
    var s := WithUnit(n, unit);
    assert s[..|s| - |unit|] == IntToString(n);
    assert s[|s| - |unit|..] == unit;
    IntToStringRoundTrip(n);
  }

  // ---------------------------------------------------------------------
  // Class attributes: filter(Boolean).join(' ') and the token list it denotes
  // ---------------------------------------------------------------------

  /**
   * `candidates.filter(Boolean)`: each candidate is a class name or `false`
   * (here `None`); `false` and the empty string are dropped, order is kept.
   */
  function Present(candidates: seq<Option<string>>): seq<string>
    decreases |candidates|
  {
    if candidates == [] then [] else Kept(candidates[0]) + Present(candidates[1..])
  }

  /** One candidate after `filter(Boolean)`: itself if it is a non-empty name, nothing otherwise. */
  function Kept(c: Option<string>): seq<string> {
    if c.Some? && c.value != "" then [c.value] else []
  }

  /** `Array.prototype.join(sep)`. */
  function Join(parts: seq<string>, sep: string): string
    decreases |parts|
  {
    if parts == [] then ""
    else if |parts| == 1 then parts[0]
    else parts[0] + sep + Join(parts[1..], sep)
  }

  /** The class attribute built from the candidates. */
  function ClassAttribute(candidates: seq<Option<string>>): string {
    Join(Present(candidates), " ")
  }

  /** A class name that survives the round trip through a space-separated attribute. */
  predicate IsClassName(t: string) {
    t != [] && ' ' !in t
  }

  /** Length of the leading run of non-space characters. */
  function WordEnd(s: string): (k: nat)
    ensures k <= |s|
    ensures forall i :: 0 <= i < k ==> s[i] != ' '
    ensures k < |s| ==> s[k] == ' '
    decreases |s|
  {
    if s == [] || s[0] == ' ' then 0 else 1 + WordEnd(s[1..])
  }

  /** The class names a space-separated class attribute denotes (its `classList`). */
  function Tokens(s: string): seq<string>
    decreases |s|
  {
    if s == [] then []
    else if s[0] == ' ' then Tokens(s[1..])
    else
      var k := WordEnd(s);
      [s[..k]] + Tokens(s[k..])
  }

  lemma {:induction false} WordEndOfName(t: string, rest: string)
    requires ' ' !in t
    requires rest == [] || rest[0] == ' '
    ensures WordEnd(t + rest) == |t|
    decreases |t|
  {
    if t != [] {
      assert (t + rest)[1..] == t[1..] + rest;
      WordEndOfName(t[1..], rest);
    }
  }

  /** Joining class names with spaces and reading the attribute back gives the same names in the same order. */
  lemma {:induction false} TokensOfJoin(names: seq<string>)
    requires forall i :: 0 <= i < |names| ==> IsClassName(names[i])
    ensures Tokens(Join(names, " ")) == names
    decreases |names|
  {
    if |names| == 1 {
      WordEndOfName(names[0], []);
      assert names[0][..|names[0]|] == names[0];
    } else if |names| > 1 {
      var t, rest := names[0], Join(names[1..], " ");
      var s := t + " " + rest;
      assert s == t + (" " + rest);
      WordEndOfName(t, " " + rest);
      assert s[..|t|] == t;
      assert s[|t|..] == " " + rest;
      assert (" " + rest)[1..] == rest;
      TokensOfJoin(names[1..]);
    }
  }

  /** The first class name of a joined attribute is also a textual prefix of it. */
  lemma {:induction false} JoinStartsWithFirst(names: seq<string>)
    requires names != []
    ensures names[0] <= Join(names, " ")
  {
    if |names| > 1 {
      assert Join(names, " ") == names[0] + (" " + Join(names[1..], " "));
    }
  }
}
