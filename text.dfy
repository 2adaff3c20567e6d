/**
 * The parts of JavaScript's string behaviour that the link pages and the logger rely on:
 * `toLowerCase`, `trim`, `Array.prototype.join` and the rendering of a count in decimal.
 */
module Text {

  /** `toLowerCase` on one character, for every character whose lower case is an ASCII
      letter: 'A'..'Z', and the Kelvin sign U+212A, which lower-cases to 'k'. Any other
      character is kept: its real lower case is never an ASCII letter, so it can never
      complete an ASCII whitelist word in either version. */
  function LowerChar(c: char): char {
    if 'A' <= c <= 'Z' then (c as int + 32) as char
    else if c == '\U{212A}' then 'k'
    else c
  }

  /** `s.toLowerCase()`, character by character. */
  function Lower(s: string): (r: string)
    ensures |r| == |s|
  {
    if s == [] then [] else [LowerChar(s[0])] + Lower(s[1..])
  }

  lemma {:induction false} LowerAt(s: string, i: nat)
    requires i < |s|
    ensures Lower(s)[i] == LowerChar(s[i])
  {
    if i > 0 {
      LowerAt(s[1..], i - 1);
    }
  }

  /** Lower-casing twice is lower-casing once. */
  lemma LowerIdempotent(s: string)
    ensures Lower(Lower(s)) == Lower(s)
  {
    var t := Lower(s);
    forall i | 0 <= i < |s|
      ensures Lower(t)[i] == t[i]
    {
      LowerAt(s, i);
      LowerAt(t, i);
    }
  }

  /** A string that `toLowerCase` leaves as it is. */
  predicate IsLowerCase(w: string) {
    forall i :: 0 <= i < |w| ==> LowerChar(w[i]) == w[i]
  }

  function UpperChar(c: char): char {
    if 'a' <= c <= 'z' then (c as int - 32) as char else c
  }

  /** `s` spells `w` letter by letter, each letter in either case (and a 'k' possibly as the
      Kelvin sign). This is the reference meaning of a case-insensitive comparison. */
  predicate SpellsIgnoringCase(s: string, w: string) {
    |s| == |w| &&
    forall i :: 0 <= i < |s| ==>
      s[i] == w[i] || s[i] == UpperChar(w[i]) || (w[i] == 'k' && s[i] == '\U{212A}')
  }

  /** Comparing `s.toLowerCase()` with a lower-case word is exactly a case-insensitive
      comparison with that word. */
  lemma LowerMatchesIffSpells(s: string, w: string)
    requires IsLowerCase(w)
    ensures Lower(s) == w <==> SpellsIgnoringCase(s, w)
  {
    if |s| == |w| {
      forall i | 0 <= i < |s|
        ensures Lower(s)[i] == LowerChar(s[i])
      {
        LowerAt(s, i);
      }
      if SpellsIgnoringCase(s, w) {
        assert forall i :: 0 <= i < |s| ==> Lower(s)[i] == w[i];
      }
    }
  }

  /** The characters `String.prototype.trim` removes: WhiteSpace and LineTerminator of
      ECMAScript (section 12.2 and 12.3 of ECMA-262), spelt out for the space separators. */
  predicate IsWhiteSpace(c: char) {
    c == '\t' || c == '\n' || c == '\U{000B}' || c == '\U{000C}' || c == '\r' || c == ' ' ||
    c == '\U{00A0}' || c == '\U{1680}' || ('\U{2000}' <= c <= '\U{200A}') || c == '\U{2028}' ||
    c == '\U{2029}' || c == '\U{202F}' || c == '\U{205F}' || c == '\U{3000}' || c == '\U{FEFF}'
  }

  function TrimStart(s: string): string {
    if s != [] && IsWhiteSpace(s[0]) then TrimStart(s[1..]) else s
  }

  function TrimEnd(s: string): string {
    if s != [] && IsWhiteSpace(s[|s| - 1]) then TrimEnd(s[..|s| - 1]) else s
  }

  /** `s.trim()`. */
  function Trim(s: string): string {
    TrimEnd(TrimStart(s))
  }

  /** Every character of `s` is white space (the empty string included). */
  predicate IsBlank(s: string) {
    forall i :: 0 <= i < |s| ==> IsWhiteSpace(s[i])
  }

  lemma {:induction false} TrimStartEmptyIffBlank(s: string)
    ensures TrimStart(s) == [] <==> IsBlank(s)
  {
    if s != [] && IsWhiteSpace(s[0]) {
      TrimStartEmptyIffBlank(s[1..]);
      assert IsBlank(s) <==> IsBlank(s[1..]) by {
        if IsBlank(s[1..]) {
          forall i | 0 <= i < |s| ensures IsWhiteSpace(s[i]) {
            if i > 0 { assert s[i] == s[1..][i - 1]; }
          }
        }
      }
    } else if s != [] {
      assert !IsWhiteSpace(s[0]);
    }
  }

  lemma {:induction false} TrimEndEmptyIffBlank(s: string)
    ensures TrimEnd(s) == [] <==> IsBlank(s)
  {
    if s != [] && IsWhiteSpace(s[|s| - 1]) {
      var p := s[..|s| - 1];
      TrimEndEmptyIffBlank(p);
      assert IsBlank(s) <==> IsBlank(p) by {
        if IsBlank(p) {
          forall i | 0 <= i < |s| ensures IsWhiteSpace(s[i]) {
            if i < |s| - 1 { assert s[i] == p[i]; }
          }
        }
      }
    } else if s != [] {
      assert !IsWhiteSpace(s[|s| - 1]);
    }
  }

  /** `TrimStart` keeps white space only when nothing else is left: a string with a
      non-blank character keeps one. */
  lemma {:induction false} TrimStartKeepsNonBlank(s: string)
    ensures IsBlank(TrimStart(s)) <==> IsBlank(s)
  {
    if s != [] && IsWhiteSpace(s[0]) {
      TrimStartKeepsNonBlank(s[1..]);
      assert IsBlank(s) <==> IsBlank(s[1..]) by {
        if IsBlank(s[1..]) {
          forall i | 0 <= i < |s| ensures IsWhiteSpace(s[i]) {
            if i > 0 { assert s[i] == s[1..][i - 1]; }
          }
        }
      }
    }
  }

  /** `s.trim()` is the empty (falsy) string exactly when `s` is all white space. */
  lemma TrimEmptyIffBlank(s: string)
    ensures Trim(s) == "" <==> IsBlank(s)
  {
    TrimEndEmptyIffBlank(TrimStart(s));
    TrimStartKeepsNonBlank(s);
  }

  /** `parts.join(sep)`. */
  function Join(parts: seq<string>, sep: string): string {
    if |parts| == 0 then ""
    else if |parts| == 1 then parts[0]
    else parts[0] + sep + Join(parts[1..], sep)
  }

  function DigitChar(d: nat): char
    requires d < 10
  {
    ('0' as int + d) as char
  }

  predicate AllDigits(r: string) {
    forall i :: 0 <= i < |r| ==> '0' <= r[i] <= '9'
  }

  /** The number a string of decimal digits denotes, read most significant digit first. */
  function DigitsValue(r: string): nat
    requires AllDigits(r)
  {
    if r == [] then 0 else DigitsValue(r[..|r| - 1]) * 10 + (r[|r| - 1] as int - '0' as int)
  }

  /** The decimal text of a count, as a template literal renders it: digits that denote `n`,
      with no leading zero. */
  function DecimalString(n: nat): (r: string)
    ensures |r| > 0 && AllDigits(r)
    ensures DigitsValue(r) == n
    ensures |r| > 1 ==> r[0] != '0'
  {
    if n < 10 then [DigitChar(n)]
    else
      var prefix := DecimalString(n / 10);
      var r := prefix + [DigitChar(n % 10)];
      assert r[..|r| - 1] == prefix;
      r
  }
}
