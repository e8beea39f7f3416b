/**
 * The string fields of lib/backend's Zod schemas: the `trim` preprocessor and
 * the name, year, branch, section, PIN and email rules. Each rule trims a
 * string input and then checks it against the character class and length of
 * its regular expression; a non-string input is rejected.
 */
module TextFields {
  import opened Values
  import opened JsString

  /** `(s) => typeof s === 'string' ? s.trim() : s`. */
  function TrimValue(v: Json): (r: Json)
    ensures v.Str? ==> r.Str? && r.s == Trim(v.s) && IsTrimmed(r.s)
    ensures !v.Str? ==> r == v
  {
    if v.Str? then Str(Trim(v.s)) else v
  }

  /** Applying `trim` twice is applying it once. */
  lemma TrimValueIdempotent(v: Json)
    ensures TrimValue(TrimValue(v)) == TrimValue(v)
  {
    if v.Str? {
      TrimIdempotent(v.s);
    }
  }

  /** `[A-Za-z .'-]` */
  predicate NameChar(c: char) {
    IsAsciiLetter(c) || c == ' ' || c == '.' || c == '\'' || c == '-'
  }

  /** `[A-Za-z&. ]` */
  predicate BranchChar(c: char) {
    IsAsciiLetter(c) || c == '&' || c == '.' || c == ' '
  }

  /** `/^[A-Za-z .'-]{2,60}$/u` */
  predicate MatchesName(t: string) {
    2 <= |t| <= 60 && forall i :: 0 <= i < |t| ==> NameChar(t[i])
  }

  /** `/^[A-Za-z&. ]{2,30}$/u` */
  predicate MatchesBranch(t: string) {
    2 <= |t| <= 30 && forall i :: 0 <= i < |t| ==> BranchChar(t[i])
  }

  /** `/^[1-4]$/u` */
  predicate MatchesYear(t: string) {
    |t| == 1 && '1' <= t[0] <= '4'
  }

  /** `/^[A-Z]$/u` */
  predicate MatchesSection(t: string) {
    |t| == 1 && IsUpperAscii(t[0])
  }

  /** `/^\d+$/` */
  predicate AllDigits(t: string) {
    |t| >= 1 && forall i :: 0 <= i < |t| ==> IsDigit(t[i])
  }

  /**
   * The name rule: after trimming, at least one UTF-16 unit and 2..60
   * characters drawn from letters, space, '.', '\'' and '-'. The accepted
   * value is the trimmed string.
   */
  function NameField(v: Json): (r: Option<string>)
    ensures r.Some? <==> v.Str? && MatchesName(Trim(v.s))
    ensures r.Some? ==> r.value == Trim(v.s) && IsTrimmed(r.value)
  {
    match TrimValue(v)
    case Str(t) => if Utf16Length(t) >= 1 && MatchesName(t) then Some(t) else None
    case _ => None
  }

  /** A name that is empty or all whitespace is rejected. */
  lemma BlankNameRejected(s: string)
    requires forall i :: 0 <= i < |s| ==> IsWhiteSpace(s[i])
    ensures NameField(Str(s)).None?
  {
    AllWhiteSpaceTrimsAway(s);
  }

  /** A string of whitespace alone trims to the empty string. */
  lemma AllWhiteSpaceTrimsAway(s: string)
    requires forall i :: 0 <= i < |s| ==> IsWhiteSpace(s[i])
    ensures Trim(s) == []
  {
    assert LeadingSpace(s) == |s|;
  }

  /** Lower-casing keeps a trimmed string trimmed: it never turns a character into whitespace. */
  lemma LowerKeepsTrimmed(t: string)
    requires IsTrimmed(t)
    ensures IsTrimmed(ToLower(t))
  {
    if t != [] {
      var e := ToLower(t);
      assert e[0] == LowerChar(t[0]) && e[|e| - 1] == LowerChar(t[|t| - 1]);
    }
  }

  /** The year rule: the trimmed value is a single digit from 1 to 4. */
  function YearField(v: Json): (r: Option<string>)
    ensures r.Some? <==> v.Str? && |Trim(v.s)| == 1 && '1' <= Trim(v.s)[0] <= '4'
    ensures r.Some? ==> r.value == Trim(v.s)
  {
    match TrimValue(v)
    case Str(t) => if MatchesYear(t) then Some(t) else None
    case _ => None
  }

  /** The branch rule: after trimming, 2..30 characters, each a letter, '&', '.' or space. */
  function BranchField(v: Json): (r: Option<string>)
    ensures r.Some? <==> v.Str? && 2 <= |Trim(v.s)| <= 30 && forall i :: 0 <= i < |Trim(v.s)| ==> BranchChar(Trim(v.s)[i])
    ensures r.Some? ==> r.value == Trim(v.s)
  {
    match TrimValue(v)
    case Str(t) => if MatchesBranch(t) then Some(t) else None
    case _ => None
  }

  /** The section rule: the trimmed value is a single letter 'A'..'Z'. */
  function SectionField(v: Json): (r: Option<string>)
    ensures r.Some? <==> v.Str? && |Trim(v.s)| == 1 && 'A' <= Trim(v.s)[0] <= 'Z'
    ensures r.Some? ==> r.value == Trim(v.s)
  {
    match TrimValue(v)
    case Str(t) => if MatchesSection(t) then Some(t) else None
    case _ => None
  }

  /**
   * The PIN rule: after trimming, UTF-16 length 4..6 and only decimal digits;
   * since digits are single units, exactly 4 to 6 digits.
   */
  function PinField(v: Json): (r: Option<string>)
    ensures r.Some? <==> v.Str? && 4 <= |Trim(v.s)| <= 6 && forall i :: 0 <= i < |Trim(v.s)| ==> IsDigit(Trim(v.s)[i])
    ensures r.Some? ==> r.value == Trim(v.s)
  {
    match TrimValue(v)
    case Str(t) =>
      assert AllDigits(t) ==> Utf16Length(t) == |t| by {
        if AllDigits(t) {
          Utf16LengthBasicPlane(t);
        }
      }
      if 4 <= Utf16Length(t) && Utf16Length(t) <= 6 && AllDigits(t) then Some(t) else None
    case _ => None
  }

  /**
   * The email rule: after trimming, non-empty and accepted by the format
   * check `isEmail` (Zod's `.email()`); the accepted value is lower-cased.
   */
  function EmailField(v: Json, isEmail: string -> bool): (r: Option<string>)
    ensures r.Some? <==> v.Str? && Trim(v.s) != "" && isEmail(Trim(v.s))
    ensures r.Some? ==> r.value == ToLower(Trim(v.s)) && IsTrimmed(r.value)
  {
    match TrimValue(v)
    case Str(t) =>
      if Utf16Length(t) >= 1 && isEmail(t) then
        LowerKeepsTrimmed(t);
        Some(ToLower(t))
      else None
    case _ => None
  }

  /** A normalised email is a fixed point of normalisation: trimming and lower-casing it again changes nothing. */
  lemma NormalisedEmailStable(s: string)
    ensures var e := ToLower(Trim(s)); Trim(e) == e && ToLower(e) == e
  {
    LowerKeepsTrimmed(Trim(s));
    TrimFixedPoint(ToLower(Trim(s)));
    ToLowerIdempotent(Trim(s));
  }
}
