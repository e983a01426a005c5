/**
  String helpers that mirror the JavaScript built-ins the application relies on:
  `String.prototype.trim`, ASCII `toLowerCase`, the `[a-zA-Z]` letter class and
  the `^https?:\/\/.+` link pattern. A Dafny `char` is a Unicode scalar value,
  so a character outside the Basic Multilingual Plane is one `char` here but two
  UTF-16 code units in JavaScript; case mapping is modelled for ASCII only.
*/
module Text {
  import opened Wrappers

  /** JavaScript falsiness of a possibly undefined string: undefined or empty. */
  predicate Falsy(s: Option<string>) {
    s.None? || s.value == ""
  }

  /** The characters `trim` removes: WhiteSpace and LineTerminator of ECMAScript. */
  predicate IsJsWhitespace(c: char) {
    c == '\t' || c == '\n' || c == '\U{000B}' || c == '\U{000C}' || c == '\r' || c == ' '
    || c == '\U{00A0}' || c == '\U{1680}' || ('\U{2000}' <= c <= '\U{200A}')
    || c == '\U{2028}' || c == '\U{2029}' || c == '\U{202F}' || c == '\U{205F}'
    || c == '\U{3000}' || c == '\U{FEFF}'
  }

  /** The characters `.` refuses to match in a JavaScript regular expression. */
  predicate IsLineTerminator(c: char) {
    c == '\n' || c == '\r' || c == '\U{2028}' || c == '\U{2029}'
  }

  predicate AllWhitespace(s: string) {
    forall i | 0 <= i < |s| :: IsJsWhitespace(s[i])
  }

  function TrimStart(s: string): string {
    if |s| > 0 && IsJsWhitespace(s[0]) then TrimStart(s[1..]) else s
  }

  function TrimEnd(s: string): string {
    if |s| > 0 && IsJsWhitespace(s[|s| - 1]) then TrimEnd(s[..|s| - 1]) else s
  }

  /** `s.trim()` */
  function Trim(s: string): string {
    TrimEnd(TrimStart(s))
  }

  /** `!s.trim()`, equivalently `s.trim() === ""` */
  predicate IsBlank(s: string) {
    Trim(s) == ""
  }

  lemma {:induction false} TrimStartEmptyIff(s: string)
    ensures TrimStart(s) == "" <==> AllWhitespace(s)
    decreases |s|
  {
    if |s| > 0 && IsJsWhitespace(s[0]) {
      TrimStartEmptyIff(s[1..]);
      assert AllWhitespace(s) <==> AllWhitespace(s[1..]) by {
        if AllWhitespace(s[1..]) {
          forall i | 0 <= i < |s| ensures IsJsWhitespace(s[i]) {
            if i > 0 { assert s[i] == s[1..][i - 1]; }
          }
        }
      }
    }
  }

  lemma {:induction false} TrimEndEmptyIff(s: string)
    ensures TrimEnd(s) == "" <==> AllWhitespace(s)
    decreases |s|
  {
    if |s| > 0 && IsJsWhitespace(s[|s| - 1]) {
      TrimEndEmptyIff(s[..|s| - 1]);
      assert AllWhitespace(s) <==> AllWhitespace(s[..|s| - 1]) by {
        if AllWhitespace(s[..|s| - 1]) {
          forall i | 0 <= i < |s| ensures IsJsWhitespace(s[i]) {
            if i < |s| - 1 { assert s[i] == s[..|s| - 1][i]; }
          }
        }
      }
    }
  }

  lemma {:induction false} TrimStartStopsAtText(s: string)
    ensures TrimStart(s) == "" || !IsJsWhitespace(TrimStart(s)[0])
    decreases |s|
  {
    if |s| > 0 && IsJsWhitespace(s[0]) {
      TrimStartStopsAtText(s[1..]);
    }
  }

  /** A string is blank exactly when every one of its characters is whitespace. */
  lemma BlankIffAllWhitespace(s: string)
    ensures IsBlank(s) <==> AllWhitespace(s)
  {
    var t := TrimStart(s);
    TrimStartEmptyIff(s);
    TrimEndEmptyIff(t);
    TrimStartStopsAtText(s);
    if t != "" {
      assert !IsJsWhitespace(t[0]);
    }
  }

  predicate IsAsciiUpper(c: char) { 'A' <= c <= 'Z' }

  /** Membership in the regular-expression class `[a-zA-Z]`. */
  predicate IsAsciiLetter(c: char) { IsAsciiUpper(c) || 'a' <= c <= 'z' }

  predicate HasAsciiLetter(s: string) {
    exists i | 0 <= i < |s| :: IsAsciiLetter(s[i])
  }

  function LowerChar(c: char): (r: char)
    ensures IsAsciiLetter(c) <==> IsAsciiLetter(r)
    ensures !IsAsciiUpper(r)
    ensures r == ' ' <==> c == ' '
  {
    if IsAsciiUpper(c) then (c as int + 32) as char else c
  }

  /** `s.toLowerCase()`, restricted to ASCII case mapping. */
  function Lower(s: string): (r: string)
    ensures |r| == |s|
    ensures forall i | 0 <= i < |s| :: r[i] == LowerChar(s[i])
  {
    seq(|s|, i requires 0 <= i < |s| => LowerChar(s[i]))
  }

  /** `s.replace(/[^a-zA-Z]/g, "")` */
  function KeepLetters(s: string): string {
    if s == [] then []
    else (if IsAsciiLetter(s[0]) then [s[0]] else []) + KeepLetters(s[1..])
  }

  /** `new Set(s.replace(/[^a-zA-Z]/g, "").toLowerCase())`: the distinct letters of `s`. */
  function LetterSet(s: string): set<char> {
    var letters := Lower(KeepLetters(s));
    set i | 0 <= i < |letters| :: letters[i]
  }

  lemma {:induction false} KeepLettersEmptyIff(s: string)
    ensures KeepLetters(s) == [] <==> !HasAsciiLetter(s)
    decreases |s|
  {
    if s != [] {
      KeepLettersEmptyIff(s[1..]);
      if HasAsciiLetter(s[1..]) {
        var i :| 0 <= i < |s[1..]| && IsAsciiLetter(s[1..][i]);
        assert IsAsciiLetter(s[i + 1]);
      }
      if HasAsciiLetter(s) && !IsAsciiLetter(s[0]) {
        var i :| 0 <= i < |s| && IsAsciiLetter(s[i]);
        assert s[1..][i - 1] == s[i];
      }
    }
  }

  /** The "at least one distinct letter" test (`size >= 1`) holds exactly when some character is in `[a-zA-Z]`. */
  lemma LetterSetNonEmptyIff(s: string)
    ensures |LetterSet(s)| >= 1 <==> HasAsciiLetter(s)
  {
    KeepLettersEmptyIff(s);
    var letters := Lower(KeepLetters(s));
    if |letters| > 0 {
      assert letters[0] in LetterSet(s);
    }
  }

  predicate StartsWith(s: string, prefix: string) {
    |prefix| <= |s| && s[..|prefix|] == prefix
  }

  /** After the scheme ends at `k`: `:\/\/` followed by one character `.` accepts. */
  predicate LinkTailAt(s: string, k: nat) {
    k + 3 < |s| && s[k..k + 3] == "://" && !IsLineTerminator(s[k + 3])
  }

  /**
    `/^https?:\/\/.+/.test(s)`: match `http`, then try the optional `s`
    taken and, failing that, skipped; `.+` succeeds once one character matches.
  */
  predicate MatchesLinkPattern(s: string) {
    StartsWith(s, "http")
    && ((|s| > 4 && s[4] == 's' && LinkTailAt(s, 5)) || LinkTailAt(s, 4))
  }

  /** `http://` or `https://` followed by at least one character other than a line terminator. */
  predicate IsHttpUrl(s: string) {
    (StartsWith(s, "http://") && |s| > 7 && !IsLineTerminator(s[7]))
    || (StartsWith(s, "https://") && |s| > 8 && !IsLineTerminator(s[8]))
  }

  /** The link pattern accepts exactly the `IsHttpUrl` strings. */
  lemma LinkPatternIff(s: string)
    ensures MatchesLinkPattern(s) <==> IsHttpUrl(s)
  {
    if StartsWith(s, "http://") && |s| > 7 {
      assert s[..4] == s[..7][..4];
      assert s[4..7] == s[..7][4..7];
    }
    if StartsWith(s, "https://") && |s| > 8 {
      assert s[..4] == s[..8][..4];
      assert s[5..8] == s[..8][5..8];
      assert s[4] == s[..8][4];
    }
    if MatchesLinkPattern(s) {
      if |s| > 4 && s[4] == 's' && LinkTailAt(s, 5) {
        assert s[..8] == s[..4] + [s[4]] + s[5..8];
      } else {
        assert s[..7] == s[..4] + s[4..7];
      }
    }
  }
}
