/**
  The URL gate of the QR generator page: `String.prototype.trim` and the
  pattern `^(https?|ftp):\/\/[^\s/$.?#].[^\s]*$` with the `i` flag, as the
  page's `validateURL` applies them (qr-generator.js:67-86).

  Characters are Unicode scalar values. `\s` and `trim` use the same set, the
  ECMAScript WhiteSpace and LineTerminator characters (ECMAScript 2023,
  sections 12.2, 12.3 and 22.2.2.9); `.` matches anything but a LineTerminator.
*/
module UrlValidation {

  // ---------------------------------------------------------------- characters

  /** ECMAScript LineTerminator: LF, CR, LINE SEPARATOR, PARAGRAPH SEPARATOR. */
  predicate IsLineTerminator(c: char) {
    c == '\n' || c == '\r' || c == '\U{2028}' || c == '\U{2029}'
  }

  /** ECMAScript WhiteSpace: TAB, VT, FF, SPACE, NBSP, ZWNBSP and the space separators (category Zs). */
  predicate IsWhiteSpace(c: char) {
    || c == '\t' || c == '\U{000B}' || c == '\U{000C}' || c == ' '
    || c == '\U{00A0}' || c == '\U{FEFF}' || c == '\U{1680}'
    || ('\U{2000}' <= c <= '\U{200A}')
    || c == '\U{202F}' || c == '\U{205F}' || c == '\U{3000}'
  }

  /** The class `\s`, which is also the set `trim` removes. */
  predicate IsSpace(c: char) {
    IsWhiteSpace(c) || IsLineTerminator(c)
  }

  /**
    Case folding as the `i` flag applies it to this pattern: only ASCII letters
    fold, since a non-ASCII character whose upper case is ASCII is not folded
    onto it (ECMAScript 2023, section 22.2.2.7.3, Canonicalize).
  */
  function FoldCase(c: char): (r: char)
    ensures 'A' <= c <= 'Z' ==> r as int == c as int + 32
    ensures !('A' <= c <= 'Z') ==> r == c
  {
    if 'A' <= c <= 'Z' then (c as int + 32) as char else c
  }

  // ---------------------------------------------------------------- trim

  /** `s` with its leading `\s` characters removed. */
  function TrimStart(s: string): (r: string)
    ensures |r| <= |s| && r == s[|s| - |r|..]
    ensures forall i :: 0 <= i < |s| - |r| ==> IsSpace(s[i])
    ensures r != [] ==> !IsSpace(r[0])
  {
    if s != [] && IsSpace(s[0]) then TrimStart(s[1..]) else s
  }

  /** `s` with its trailing `\s` characters removed. */
  function TrimEnd(s: string): (r: string)
    ensures |r| <= |s| && r == s[..|r|]
    ensures forall i :: |r| <= i < |s| ==> IsSpace(s[i])
    ensures r != [] ==> !IsSpace(r[|r| - 1])
  {
    if s != [] && IsSpace(s[|s| - 1]) then TrimEnd(s[..|s| - 1]) else s
  }

  /** `String.prototype.trim`: `s` without `\s` at either end. */
  function Trim(s: string): (r: string)
    ensures |r| <= |s|
    ensures r != [] ==> !IsSpace(r[0]) && !IsSpace(r[|r| - 1])
  {
    TrimEnd(TrimStart(s))
  }

  /** Where the trimmed run starts in `s`: the number of leading `\s` characters. */
  function TrimOffset(s: string): nat {
    |s| - |TrimStart(s)|
  }

  /** Trimming drops exactly the `\s` characters at the two ends and keeps the run between them. */
  lemma TrimDropsOnlySpace(s: string)
    ensures var r, a := Trim(s), TrimOffset(s);
      && a + |r| <= |s| && r == s[a..a + |r|]
      && (forall i :: 0 <= i < a ==> IsSpace(s[i]))
      && (forall i :: a + |r| <= i < |s| ==> IsSpace(s[i]))
  {
    var t := TrimStart(s);
    var r := TrimEnd(t);
    var a := |s| - |t|;
    forall i | a + |r| <= i < |s| ensures IsSpace(s[i]) {
      assert s[i] == t[i - a];
    }
  }

  /** The trimmed string is empty exactly when every character is `\s`. */
  lemma TrimEmptyIff(s: string)
    ensures Trim(s) == [] <==> forall i :: 0 <= i < |s| ==> IsSpace(s[i])
  {
    TrimDropsOnlySpace(s);
    var a := TrimOffset(s);
    if Trim(s) != [] {
      assert Trim(s)[0] == s[a];
    }
  }

  /** A string without `\s` at either end is its own trim. */
  lemma TrimOfTrimmed(s: string)
    requires s != [] ==> !IsSpace(s[0]) && !IsSpace(s[|s| - 1])
    ensures Trim(s) == s
  {
    assert TrimStart(s) == s;
    assert TrimEnd(s) == s;
  }

  /** Trimming twice is trimming once. */
  lemma TrimIdempotent(s: string)
    ensures Trim(Trim(s)) == Trim(s)
  {
    TrimOfTrimmed(Trim(s));
  }

  // ---------------------------------------------------------------- the pattern

  /** The schemes of the alternation `(https?|ftp)`, in lower case. */
  const SCHEMES: seq<string> := ["http", "https", "ftp"]

  /** The characters the first class `[^\s/$.?#]` excludes besides `\s`. */
  const FIRST_EXCLUDED: string := "/$.?#"

  /** `s` starts with the lower-case `p`, letters compared without regard to case. */
  predicate StartsWithIgnoringCase(s: string, p: string) {
    |p| <= |s| && forall i :: 0 <= i < |p| ==> FoldCase(s[i]) == p[i]
  }

  /** No character of `t` is `\s`; the loop `[^\s]*` anchored by `$`. */
  function NoSpace(t: string): (r: bool)
    ensures r <==> forall i :: 0 <= i < |t| ==> !IsSpace(t[i])
  {
    t == [] || (!IsSpace(t[0]) && NoSpace(t[1..]))
  }

  /** What follows `://`: `[^\s/$.?#]`, then `.`, then `[^\s]*` to the end. */
  predicate AuthorityMatches(t: string) {
    && |t| >= 2
    && !IsSpace(t[0]) && t[0] !in FIRST_EXCLUDED
    && !IsLineTerminator(t[1])
    && NoSpace(t[2..])
  }

  /**
    How many characters `(https?|ftp):\/\/` consumes at the start of `s`, or 0
    when it does not match. The alternatives are tried in the order a
    backtracking matcher tries them: `https`, then `http`, then `ftp`.
  */
  function SchemeLength(s: string): (r: nat)
    ensures r == 0 || r == 6 || r == 7 || r == 8
    ensures r <= |s|
  {
    if StartsWithIgnoringCase(s, "https://") then 8
    else if StartsWithIgnoringCase(s, "http://") then 7
    else if StartsWithIgnoringCase(s, "ftp://") then 6
    else 0
  }

  /** The regular expression test, the way the matcher runs it. */
  predicate MatchesUrlPattern(s: string) {
    var k := SchemeLength(s);
    k > 0 && AuthorityMatches(s[k..])
  }

  /**
    The language of the pattern, stated character by character: one of the
    schemes in any case, `://`, a first character that is neither `\s` nor one of
    `/ $ . ? #`, a second that is not a line terminator, and no `\s` after that.
  */
  ghost predicate InUrlLanguage(s: string) {
    exists j :: 0 <= j < |SCHEMES| &&
      var k := |SCHEMES[j]| + 3;
      && StartsWithIgnoringCase(s, SCHEMES[j] + "://")
      && k + 2 <= |s|
      && !IsSpace(s[k]) && s[k] !in FIRST_EXCLUDED
      && !IsLineTerminator(s[k + 1])
      && (forall i :: k + 2 <= i < |s| ==> !IsSpace(s[i]))
  }

  /** The matcher accepts exactly the strings of the language. */
  lemma MatchesUrlPatternIff(s: string)
    ensures MatchesUrlPattern(s) <==> InUrlLanguage(s)
  {
    if MatchesUrlPattern(s) {
      MatchedInLanguage(s);
    }
    if InUrlLanguage(s) {
      LanguageMatched(s);
    }
  }

  lemma MatchedInLanguage(s: string)
    requires MatchesUrlPattern(s)
    ensures InUrlLanguage(s)
  {
    var k := SchemeLength(s);
    var j := if k == 8 then 1 else if k == 7 then 0 else 2;
    assert SCHEMES[j] + "://" == (if k == 8 then "https://" else if k == 7 then "http://" else "ftp://");
    var t := s[k..];
    forall i | k + 2 <= i < |s| ensures !IsSpace(s[i]) {
      assert s[i] == t[2..][i - k - 2];
    }
  }

  lemma LanguageMatched(s: string)
    requires InUrlLanguage(s)
    ensures MatchesUrlPattern(s)
  {
    var j :| 0 <= j < |SCHEMES| && StartsWithIgnoringCase(s, SCHEMES[j] + "://")
      && |SCHEMES[j]| + 5 <= |s|
      && !IsSpace(s[|SCHEMES[j]| + 3]) && s[|SCHEMES[j]| + 3] !in FIRST_EXCLUDED
      && !IsLineTerminator(s[|SCHEMES[j]| + 4])
      && (forall i :: |SCHEMES[j]| + 5 <= i < |s| ==> !IsSpace(s[i]));
    SchemesExclusive(s, j);
    var k := SchemeLength(s);
    var t := s[k..];
    assert NoSpace(t[2..]) by {
      forall i | 0 <= i < |t[2..]| ensures !IsSpace(t[2..][i]) {
        assert t[2..][i] == s[k + 2 + i];
      }
    }
  }

  /** The scheme a string starts with fixes how much `(https?|ftp):\/\/` consumes. */
  lemma SchemesExclusive(s: string, j: int)
    requires 0 <= j < |SCHEMES| && StartsWithIgnoringCase(s, SCHEMES[j] + "://")
    ensures SchemeLength(s) == |SCHEMES[j]| + 3
  {
    var p := SCHEMES[j] + "://";
    if j == 0 {
      assert FoldCase(s[4]) == p[4] == ':';
    } else if j == 2 {
      assert FoldCase(s[0]) == p[0] == 'f';
    }
  }

  /** Every accepted string has at least two characters after `://`. */
  lemma AcceptedHasTwoAfterSeparator(s: string)
    requires MatchesUrlPattern(s)
    ensures exists j :: 0 <= j < |SCHEMES| && StartsWithIgnoringCase(s, SCHEMES[j] + "://") && |SCHEMES[j]| + 5 <= |s|
  {
    MatchesUrlPatternIff(s);
  }

  // ---------------------------------------------------------------- validateURL

  /** `validateURL` on the input's value: the trimmed value is empty or matches the pattern. */
  predicate ValidateUrl(value: string) {
    var url := Trim(value);
    url == [] || MatchesUrlPattern(url)
  }

  /**
    `validateURL` accepts exactly the inputs that are all `\s` and those whose
    trimmed value is in the language of the pattern.
  */
  lemma ValidateUrlIff(value: string)
    ensures ValidateUrl(value) <==>
      (forall i :: 0 <= i < |value| ==> IsSpace(value[i])) || InUrlLanguage(Trim(value))
  {
    TrimEmptyIff(value);
    MatchesUrlPatternIff(Trim(value));
    if Trim(value) == [] {
      assert !MatchesUrlPattern(Trim(value));
    }
  }

  /** Surrounding `\s` never changes the verdict: validation sees only the trimmed value. */
  lemma ValidateUrlIgnoresPadding(value: string)
    ensures ValidateUrl(value) == ValidateUrl(Trim(value))
  {
    TrimIdempotent(value);
  }

  /** Validation of a value without `\s` at either end is the pattern test alone. */
  lemma ValidateUntrimmed(s: string)
    requires s != [] && !IsSpace(s[0]) && !IsSpace(s[|s| - 1])
    ensures ValidateUrl(s) == MatchesUrlPattern(s)
  {
    TrimOfTrimmed(s);
  }

  /** `http://a` has one character after `://` and is rejected. */
  lemma OneCharacterHostRejected()
    ensures !ValidateUrl("http://a")
  {
    var s := "http://a";
    ValidateUntrimmed(s);
    assert !StartsWithIgnoringCase(s, "https://") by {
      assert FoldCase(s[4]) != 's';
    }
    assert SchemeLength(s) == 7;
    assert |s[7..]| == 1;
  }

  /** A space may stand second after `://`: `http://a b` matches. */
  lemma InnerSpaceAccepted()
    ensures MatchesUrlPattern("http://a b")
  {
    SchemeInAnyCase("http", "a b", 0);
    assert "http://a b" == "http" + "://" + "a b";
    assert "a b"[2..] == "b";
  }

  /**
    The scheme is matched without regard to case: any spelling of a scheme
    followed by `://` leaves the verdict to what comes after the separator.
  */
  lemma SchemeInAnyCase(p: string, rest: string, j: int)
    requires 0 <= j < |SCHEMES| && |p| == |SCHEMES[j]|
    requires forall i :: 0 <= i < |p| ==> FoldCase(p[i]) == SCHEMES[j][i]
    ensures MatchesUrlPattern(p + "://" + rest) <==> AuthorityMatches(rest)
  {
    var s := p + "://" + rest;
    var q := SCHEMES[j] + "://";
    forall i | 0 <= i < |q| ensures FoldCase(s[i]) == q[i] {
      if i >= |p| {
        assert s[i] == "://"[i - |p|] == q[i];
      }
    }
    SchemesExclusive(s, j);
    assert s[|p| + 3..] == rest;
  }
}
