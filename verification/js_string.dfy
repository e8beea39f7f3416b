/**
 * The JavaScript string operations the route handlers rely on:
 * String.prototype.trim, String.prototype.toLowerCase, the UTF-16 `length`
 * that Zod's `.min`/`.max` compare, the character classes of the schema
 * regular expressions, and Number.prototype.toString on non-negative integers.
 */
module JsString {

  /** The ECMAScript WhiteSpace and LineTerminator code points: what `trim` strips. */
  const WhiteSpace: set<char> := {
    '\U{0009}', '\U{000A}', '\U{000B}', '\U{000C}', '\U{000D}', '\U{0020}', '\U{00A0}', '\U{1680}',
    '\U{2000}', '\U{2001}', '\U{2002}', '\U{2003}', '\U{2004}', '\U{2005}', '\U{2006}', '\U{2007}',
    '\U{2008}', '\U{2009}', '\U{200A}', '\U{2028}', '\U{2029}', '\U{202F}', '\U{205F}', '\U{3000}',
    '\U{FEFF}'
  }

  predicate IsWhiteSpace(c: char) {
    c in WhiteSpace
  }

  /** Neither end of `s` is whitespace: `s` is its own trimmed form. */
  predicate IsTrimmed(s: string) {
    s == [] || (!IsWhiteSpace(s[0]) && !IsWhiteSpace(s[|s| - 1]))
  }

  /** The length of the longest whitespace prefix. */
  function LeadingSpace(s: string): (n: nat)
    ensures n <= |s|
    ensures forall k :: 0 <= k < n ==> IsWhiteSpace(s[k])
    ensures n < |s| ==> !IsWhiteSpace(s[n])
  {
    if |s| > 0 && IsWhiteSpace(s[0]) then
      var m := LeadingSpace(s[1..]);
      assert forall k :: 1 <= k < m + 1 ==> s[k] == s[1..][k - 1];
      m + 1
    else 0
  }

  /** The length of the longest whitespace suffix. */
  function TrailingSpace(s: string): (n: nat)
    ensures n <= |s|
    ensures forall k :: |s| - n <= k < |s| ==> IsWhiteSpace(s[k])
    ensures n < |s| ==> !IsWhiteSpace(s[|s| - n - 1])
  {
    if |s| > 0 && IsWhiteSpace(s[|s| - 1]) then
      var m := TrailingSpace(s[..|s| - 1]);
      assert forall k :: 0 <= k < |s| - 1 ==> s[k] == s[..|s| - 1][k];
      m + 1
    else 0
  }

  /**
   * String.prototype.trim: the part of `s` left once the whitespace prefix
   * and then the whitespace suffix are removed; it has no whitespace at either end.
   */
  function Trim(s: string): (r: string)
    ensures IsTrimmed(r) && |r| <= |s|
  {
    var lead := LeadingSpace(s);
    var rest := s[lead..];
    var r := rest[..|rest| - TrailingSpace(rest)];
    assert r != [] ==> r[0] == s[lead] && r[|r| - 1] == rest[|rest| - TrailingSpace(rest) - 1];
    r
  }

  /**
   * What `trim` removes is whitespace and nothing else: the result is the
   * part of `s` between a whitespace prefix and a whitespace suffix.
   */
  lemma TrimRemovesOnlyWhiteSpace(s: string)
    ensures var lead := LeadingSpace(s);
      && lead + |Trim(s)| <= |s|
      && Trim(s) == s[lead..lead + |Trim(s)|]
      && (forall k :: 0 <= k < lead ==> IsWhiteSpace(s[k]))
      && (forall k :: lead + |Trim(s)| <= k < |s| ==> IsWhiteSpace(s[k]))
  {
    var lead := LeadingSpace(s);
    var rest := s[lead..];
    forall k | lead + |Trim(s)| <= k < |s|
      ensures IsWhiteSpace(s[k])
    {
      assert s[k] == rest[k - lead];
    }
  }

  /** A string is unchanged by `trim` exactly when neither end is whitespace. */
  lemma TrimFixedPoint(s: string)
    ensures Trim(s) == s <==> IsTrimmed(s)
  {
    if IsTrimmed(s) {
      assert LeadingSpace(s) == 0;
      assert s[0..] == s;
      assert TrailingSpace(s) == 0;
    }
  }

  /** Trimming twice is trimming once. */
  lemma TrimIdempotent(s: string)
    ensures Trim(Trim(s)) == Trim(s)
  {
    TrimFixedPoint(Trim(s));
  }

  /** The UTF-16 length of a string: code points above U+FFFF take two units. */
  function Utf16Length(s: string): (n: nat)
    ensures |s| <= n <= 2 * |s|
  {
    if s == [] then 0 else (if s[0] as int >= 0x10000 then 2 else 1) + Utf16Length(s[1..])
  }

  predicate InBasicPlane(s: string) {
    forall i :: 0 <= i < |s| ==> s[i] as int < 0x10000
  }

  /** On basic-plane text, JavaScript's `length` is the number of code points. */
  lemma {:induction false} Utf16LengthBasicPlane(s: string)
    requires InBasicPlane(s)
    ensures Utf16Length(s) == |s|
  {
    if s != [] {
      assert InBasicPlane(s[1..]) by {
        forall i | 0 <= i < |s[1..]| ensures s[1..][i] as int < 0x10000 {
          assert s[1..][i] == s[i + 1];
        }
      }
      Utf16LengthBasicPlane(s[1..]);
    }
  }

  predicate IsUpperAscii(c: char) { 'A' <= c <= 'Z' }
  predicate IsLowerAscii(c: char) { 'a' <= c <= 'z' }
  predicate IsAsciiLetter(c: char) { IsUpperAscii(c) || IsLowerAscii(c) }
  predicate IsDigit(c: char) { '0' <= c <= '9' }

  function LowerChar(c: char): char {
    if IsUpperAscii(c) then (c as int + 32) as char else c
  }

  /**
   * String.prototype.toLowerCase on ASCII letters: every upper-case letter is
   * replaced by its lower-case form and every other character is kept.
   */
  function ToLower(s: string): (r: string)
    ensures |r| == |s|
    ensures forall i :: 0 <= i < |s| ==> !IsUpperAscii(r[i])
    ensures forall i :: 0 <= i < |s| && !IsUpperAscii(s[i]) ==> r[i] == s[i]
    ensures forall i :: 0 <= i < |s| && IsUpperAscii(s[i]) ==> r[i] as int == s[i] as int + 32
  {
    seq(|s|, i requires 0 <= i < |s| => LowerChar(s[i]))
  }

  /** Lower-casing twice is lower-casing once. */
  lemma ToLowerIdempotent(s: string)
    ensures ToLower(ToLower(s)) == ToLower(s)
  {
  }

  /** The decimal value of a digit string. */
  function DigitsValue(s: string): (n: nat)
    requires forall i :: 0 <= i < |s| ==> IsDigit(s[i])
  {
    if s == [] then 0
    else
      assert IsDigit(s[|s| - 1]);
      10 * DigitsValue(s[..|s| - 1]) + (s[|s| - 1] as int - '0' as int)
  }

  /** Number.prototype.toString on a non-negative integer: its decimal digits, no leading zero. */
  function DecimalString(n: nat): (r: string)
    ensures |r| >= 1 && (forall i :: 0 <= i < |r| ==> IsDigit(r[i]))
    ensures |r| > 1 ==> r[0] != '0'
    ensures DigitsValue(r) == n
  {
    var last := [('0' as int + n % 10) as char];
    if n < 10 then last
    else
      var r := DecimalString(n / 10) + last;
      assert r[..|r| - 1] == DecimalString(n / 10);
      r
  }

  /** A number in 1000..9999 prints as exactly four digits. */
  lemma {:induction false} FourDigits(n: nat)
    requires 1000 <= n <= 9999
    ensures |DecimalString(n)| == 4
  {
    assert |DecimalString(n / 1000)| == 1;
    assert |DecimalString(n / 100)| == 2;
    assert |DecimalString(n / 10)| == 3;
  }
}
