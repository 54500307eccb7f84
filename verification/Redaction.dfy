/**
 Redaction of secrets in log lines: two patterns, each replaced everywhere by its first group and a
 mask.  The regular expressions are hand-written scanners (ASCII strings, leftmost greedy matching).
 */
module Redaction {
  import opened Ascii
  import opened Common

  const MASK := "[REDACTED]"

  /** Assignment: (password|secret|token|api[_-]?key)=\S+   Bearer: (authorization:\s*bearer\s+)[A-Za-z0-9._~+/-]+=* */
  datatype Pattern = Assignment | Bearer

  /** The length of the first group and of the whole match. */
  datatype Hit = Hit(group: nat, end: nat)

  /** The class \s. */
  predicate IsBlank(c: char) {
    c in {' ', '\t', '\n', '\r', '\U{000C}'}
  }

  predicate IsVisible(c: char) { !IsBlank(c) }

  predicate IsEquals(c: char) { c == '=' }

  predicate IsTokenChar(c: char) {
    IsAlnum(c) || 'A' <= c <= 'Z' || c in {'.', '_', '~', '+', '/', '-'}
  }

  /** `s` begins with `word`, which is in lower case, whatever the case of its letters. */
  predicate Begins(s: string, word: string) {
    |s| >= |word| && forall i :: 0 <= i < |word| ==> LowerChar(s[i]) == word[i]
  }

  /** The length of the longest prefix in the class. */
  function RunLength(s: string, inClass: char -> bool): (n: nat)
    ensures n <= |s|
    ensures forall i :: 0 <= i < n ==> inClass(s[i])
    ensures n < |s| ==> !inClass(s[n])
  {
    if s != "" && inClass(s[0]) then 1 + RunLength(s[1..], inClass) else 0
  }

  const KEYWORDS := ["password", "secret", "token", "apikey", "api_key", "api-key"]

  /** The length of the keyword at the start of `s`, or zero. */
  function KeywordLength(s: string): nat {
    if Begins(s, "password") then 8
    else if Begins(s, "secret") then 6
    else if Begins(s, "token") then 5
    else if Begins(s, "api") then
      var separator := if |s| > 3 && (s[3] == '_' || s[3] == '-') then 1 else 0;
      if Begins(s[3 + separator..], "key") then 6 + separator else 0
    else 0
  }

  /** The length of `authorization:\s*bearer\s+` at the start of `s`, or zero. */
  function HeaderLength(s: string): (n: nat)
    ensures n <= |s|
  {
    if !Begins(s, "authorization:") then 0
    else
      var a := 14 + RunLength(s[14..], IsBlank);
      if !Begins(s[a..], "bearer") then 0
      else
        var spaces := RunLength(s[a + 6..], IsBlank);
        if spaces == 0 then 0 else a + 6 + spaces
  }

  /** The match of a pattern at the start of `s`. */
  function MatchAt(p: Pattern, s: string): (hit: Option<Hit>)
    ensures hit.Some? ==> 0 < hit.value.group < hit.value.end <= |s|
  {
    match p
    case Assignment =>
      var k := KeywordLength(s);
      if k > 0 && k + 1 < |s| && s[k] == '=' && !IsBlank(s[k + 1])
      then Some(Hit(k, k + 1 + RunLength(s[k + 1..], IsVisible)))
      else None
    case Bearer =>
      var g := HeaderLength(s);
      if g > 0 && g < |s| && IsTokenChar(s[g]) then
        var t := g + RunLength(s[g..], IsTokenChar);
        Some(Hit(g, t + RunLength(s[t..], IsEquals)))
      else None
  }

  /** ReplaceAllString(s, "$1[REDACTED]"): leftmost matches, left to right, none overlapping. */
  function ReplaceAll(p: Pattern, s: string): string {
    if s == "" then ""
    else
      match MatchAt(p, s)
      case Some(hit) => s[..hit.group] + MASK + ReplaceAll(p, s[hit.end..])
      case None => [s[0]] + ReplaceAll(p, s[1..])
  }

  function Redact(line: string): string {
    ReplaceAll(Bearer, ReplaceAll(Assignment, line))
  }

  // ---------------------------------------------------------------- what a secret is

  /** `t` as a whole is matched by the pattern, said without a scanner. */
  ghost predicate Matches(p: Pattern, t: string) {
    match p
    case Assignment =>
      exists k: nat :: AssignmentParts(t, k)
    case Bearer =>
      exists a: nat, b: nat, d: nat :: BearerParts(t, a, b, d)
  }

  predicate IsKeyword(word: string) {
    Lower(word) in KEYWORDS
  }

  /** A keyword up to `k`, an equals sign, and at least one non-blank character. */
  predicate AssignmentParts(t: string, k: nat) {
    && k + 1 < |t| && t[k] == '=' && IsKeyword(t[..k])
    && forall i :: k < i < |t| ==> !IsBlank(t[i])
  }

  /** Blanks up to `a`, `bearer`, blanks up to `b`, token characters up to `d`, then equals signs. */
  predicate BearerParts(t: string, a: nat, b: nat, d: nat) {
    && 14 <= a && a + 6 < b < d <= |t|
    && Begins(t, "authorization:") && (forall i :: 14 <= i < a ==> IsBlank(t[i]))
    && Begins(t[a..], "bearer") && (forall i :: a + 6 <= i < b ==> IsBlank(t[i]))
    && (forall i :: b <= i < d ==> IsTokenChar(t[i])) && (forall i :: d <= i < |t| ==> IsEquals(t[i]))
  }

  /** Some substring of `s` is matched by the pattern. */
  ghost predicate Leaks(p: Pattern, s: string) {
    exists i: nat, j: nat :: i <= j <= |s| && Matches(p, s[i..j])
  }

  /** The scanner finds nothing at any position. */
  predicate Clean(p: Pattern, s: string) {
    s == "" || (MatchAt(p, s).None? && Clean(p, s[1..]))
  }

  // ---------------------------------------------------------------- the scanner finds exactly the secrets

  lemma LowerIs(s: string, word: string)
    ensures Lower(s) == word <==> |s| == |word| && Begins(s, word)
  {
  }

  lemma BeginsPrefix(s: string, k: nat, word: string)
    requires k <= |s|
    ensures Lower(s[..k]) == word <==> k == |word| && Begins(s, word)
  {
    LowerIs(s[..k], word);
  }

  lemma KeywordIff(s: string, k: nat)
    requires 0 < k <= |s|
    ensures KeywordLength(s) == k <==> IsKeyword(s[..k])
  {
    BeginsPrefix(s, k, "password");
    BeginsPrefix(s, k, "secret");
    BeginsPrefix(s, k, "token");
    BeginsPrefix(s, k, "apikey");
    BeginsPrefix(s, k, "api_key");
    BeginsPrefix(s, k, "api-key");
    ApiKeyForms(s);
  }

  lemma ApiKeyForms(s: string)
    requires |s| > 0
    ensures Begins(s, "apikey") <==> Begins(s, "api") && Begins(s[3..], "key")
    ensures Begins(s, "api_key") <==> Begins(s, "api") && |s| > 3 && s[3] == '_' && Begins(s[4..], "key")
    ensures Begins(s, "api-key") <==> Begins(s, "api") && |s| > 3 && s[3] == '-' && Begins(s[4..], "key")
  {
    if Begins(s, "api") {
      assert forall i :: 0 <= i < |s[3..]| ==> s[3..][i] == s[i + 3];
      if |s| > 3 {
        assert forall i :: 0 <= i < |s[4..]| ==> s[4..][i] == s[i + 4];
      }
    }
  }

  lemma AssignmentFound(s: string)
    requires MatchAt(Assignment, s).Some?
    ensures AssignmentParts(s[..MatchAt(Assignment, s).value.end], MatchAt(Assignment, s).value.group)
  {
    var hit := MatchAt(Assignment, s).value;
    var k, t, tail := hit.group, s[..hit.end], s[hit.group + 1..];
    KeywordIff(s, k);
    assert t[..k] == s[..k];
    assert forall i :: k < i < |t| ==> t[i] == tail[i - k - 1];
    assert AssignmentParts(t, k);
  }

  lemma KeywordNotEmpty(word: string)
    requires IsKeyword(word)
    ensures word != ""
  {
  }

  lemma AssignmentLongest(s: string, j: nat, k: nat)
    requires j <= |s| && AssignmentParts(s[..j], k)
    ensures MatchAt(Assignment, s).Some? && j <= MatchAt(Assignment, s).value.end
  {
    var t, tail := s[..j], s[k + 1..];
    assert t[..k] == s[..k];
    KeywordNotEmpty(t[..k]);
    KeywordIff(s, k);
    hide IsKeyword, KeywordLength;
    assert forall i :: k < i < j ==> tail[i - k - 1] == t[i];
    RunAtLeast(tail, IsVisible, j - k - 1);
    assert s[k + 1] == tail[0];
  }

  lemma RunIs(s: string, inClass: char -> bool, n: nat)
    requires n <= |s| && (forall i :: 0 <= i < n ==> inClass(s[i])) && (n < |s| ==> !inClass(s[n]))
    ensures RunLength(s, inClass) == n
  {
  }

  lemma HeaderIs(s: string, a: nat, b: nat)
    requires 14 <= a && a + 6 < b < |s| && !IsBlank(s[b])
    requires Begins(s, "authorization:") && Begins(s[a..], "bearer")
    requires (forall i :: 14 <= i < a ==> IsBlank(s[i])) && (forall i :: a + 6 <= i < b ==> IsBlank(s[i]))
    ensures HeaderLength(s) == b
  {
    assert s[a..][0] == s[a];
    assert !IsBlank(s[a]);
    RunIs(s[14..], IsBlank, a - 14);
    RunIs(s[a + 6..], IsBlank, b - a - 6);
  }

  lemma BearerSplit(s: string, j: nat, a: nat, b: nat, d: nat)
    requires j <= |s| && BearerParts(s[..j], a, b, d)
    ensures HeaderLength(s) == b && IsTokenChar(s[b])
  {
    hide HeaderLength;
    assert forall i :: 0 <= i < |s[..j][a..]| ==> s[..j][a..][i] == s[a..][i];
    assert s[..j][b] == s[b];
    HeaderIs(s, a, b);
  }

  lemma RunAtLeast(s: string, inClass: char -> bool, n: nat)
    requires n <= |s| && forall i :: 0 <= i < n ==> inClass(s[i])
    ensures RunLength(s, inClass) >= n
  {
  }

  /** The characters of a run that begins at `from`. */
  lemma RunFrom(s: string, from: nat, inClass: char -> bool)
    requires from <= |s|
    ensures forall i :: from <= i < from + RunLength(s[from..], inClass) ==> inClass(s[i])
  {
    assert forall i :: from <= i < |s| ==> s[i] == s[from..][i - from];
  }

  /** Where the blanks after `authorization:` end. */
  lemma HeaderShape(s: string) returns (a: nat)
    requires HeaderLength(s) > 0
    ensures 14 <= a && a + 6 < HeaderLength(s)
    ensures Begins(s, "authorization:") && Begins(s[a..], "bearer")
    ensures forall i :: 14 <= i < a ==> IsBlank(s[i])
    ensures forall i :: a + 6 <= i < HeaderLength(s) ==> IsBlank(s[i])
  {
    a := 14 + RunLength(s[14..], IsBlank);
    RunFrom(s, 14, IsBlank);
    RunFrom(s, a + 6, IsBlank);
  }

  /** The token characters and the equals signs after a header of length `g`. */
  lemma TailShape(s: string, g: nat) returns (d: nat)
    requires MatchAt(Bearer, s).Some? && g == HeaderLength(s)
    ensures g < d <= MatchAt(Bearer, s).value.end <= |s|
    ensures forall i :: g <= i < d ==> IsTokenChar(s[i])
    ensures forall i :: d <= i < MatchAt(Bearer, s).value.end ==> IsEquals(s[i])
  {
    hide HeaderLength;
    d := g + RunLength(s[g..], IsTokenChar);
    RunFrom(s, g, IsTokenChar);
    RunFrom(s, d, IsEquals);
    assert s[g..][0] == s[g];
  }

  lemma PartsOfPrefix(s: string, n: nat, a: nat, b: nat, d: nat)
    requires n <= |s| && 14 <= a && a + 6 < b < d <= n
    requires Begins(s, "authorization:") && Begins(s[a..], "bearer")
    requires (forall i :: 14 <= i < a ==> IsBlank(s[i])) && (forall i :: a + 6 <= i < b ==> IsBlank(s[i]))
    requires (forall i :: b <= i < d ==> IsTokenChar(s[i])) && (forall i :: d <= i < n ==> IsEquals(s[i]))
    ensures BearerParts(s[..n], a, b, d)
  {
    assert forall i :: 0 <= i < n - a ==> s[..n][a..][i] == s[a..][i];
  }

  lemma BearerFound(s: string)
    requires MatchAt(Bearer, s).Some?
    ensures exists a: nat, d: nat :: BearerParts(s[..MatchAt(Bearer, s).value.end], a, MatchAt(Bearer, s).value.group, d)
  {
    var a := HeaderShape(s);
    var d := TailShape(s, HeaderLength(s));
    PartsOfPrefix(s, MatchAt(Bearer, s).value.end, a, HeaderLength(s), d);
  }

  lemma BearerLongest(s: string, j: nat, a: nat, b: nat, d: nat)
    requires j <= |s| && BearerParts(s[..j], a, b, d)
    ensures MatchAt(Bearer, s).Some? && j <= MatchAt(Bearer, s).value.end
  {
    hide HeaderLength, Begins, IsBlank, RunLength;
    BearerSplit(s, j, a, b, d);
    BearerTail(s, j, b, d);
  }

  lemma BearerTail(s: string, j: nat, b: nat, d: nat)
    requires b < d <= j <= |s|
    requires (forall i :: b <= i < d ==> IsTokenChar(s[i])) && (forall i :: d <= i < j ==> IsEquals(s[i]))
    ensures var n := b + RunLength(s[b..], IsTokenChar);
            j <= n + RunLength(s[n..], IsEquals)
  {
    RunAtLeast(s[b..], IsTokenChar, d - b);
    if d < j {
      RunIs(s[b..], IsTokenChar, d - b);
      RunAtLeast(s[d..], IsEquals, j - d);
    }
  }

  /** At every position the scanner returns the longest match there is, when there is one. */
  lemma HitIsLongest(p: Pattern, s: string)
    ensures var hit := MatchAt(p, s);
            && (hit.Some? ==> Matches(p, s[..hit.value.end]))
            && (forall j: nat :: j <= |s| && Matches(p, s[..j]) ==> hit.Some? && j <= hit.value.end)
  {
    if MatchAt(p, s).Some? {
      if p == Assignment { AssignmentFound(s); } else { BearerFound(s); }
    }
    forall j: nat | j <= |s| && Matches(p, s[..j])
      ensures MatchAt(p, s).Some? && j <= MatchAt(p, s).value.end
    {
      if p == Assignment {
        var k: nat :| AssignmentParts(s[..j], k);
        AssignmentLongest(s, j, k);
      } else {
        var a: nat, b: nat, d: nat :| BearerParts(s[..j], a, b, d);
        BearerLongest(s, j, a, b, d);
      }
    }
  }

  lemma SliceOfTail(s: string, i: nat, j: nat)
    requires 1 <= i <= j <= |s|
    ensures s[1..][i - 1..j - 1] == s[i..j]
  {
  }

  /** Nothing is found at any position exactly when no substring is a secret. */
  lemma {:induction false} CleanIffNoLeak(p: Pattern, s: string)
    ensures Clean(p, s) <==> !Leaks(p, s)
    decreases |s|
  {
    hide MatchAt, Matches;
    HitIsLongest(p, s);
    if s == "" {
      assert s[0..0] == "";
      EmptyNeverMatches(p);
    } else {
      var rest := s[1..];
      CleanIffNoLeak(p, rest);
      if MatchAt(p, s).Some? {
        assert s[0..MatchAt(p, s).value.end] == s[..MatchAt(p, s).value.end];
      }
      if Leaks(p, rest) {
        var i: nat, j: nat :| i <= j <= |rest| && Matches(p, rest[i..j]);
        SliceOfTail(s, i + 1, j + 1);
      }
      if Leaks(p, s) {
        var i: nat, j: nat :| i <= j <= |s| && Matches(p, s[i..j]);
        if i == 0 {
          assert s[0..j] == s[..j];
        } else {
          SliceOfTail(s, i, j);
        }
      }
    }
  }

  lemma EmptyNeverMatches(p: Pattern)
    ensures !Matches(p, "")
  {
  }

  // ---------------------------------------------------------------- nothing survives

  /** The character that the first mask of a match replaces is visible. */
  lemma MaskedIsVisible(p: Pattern, u: string)
    requires MatchAt(p, u).Some?
    ensures IsVisible(u[MatchAt(p, u).value.group])
  {
  }

  /** What the output shows before its first mask was there in the input, and what follows was visible. */
  lemma {:induction false} OutputReflectsInput(p: Pattern, u: string, w: string, c: char)
    requires '[' !in w && w + [c] <= ReplaceAll(p, u)
    ensures w <= u && |w| < |u| && (c == u[|w|] || (c == '[' && IsVisible(u[|w|])))
    decreases |u|
  {
    hide MatchAt;
    assert (w + [c])[|w|] == c;
    if u != "" {
      var hit := MatchAt(p, u);
      if hit.None? {
        if w != "" {
          assert (w + [c])[1..] == w[1..] + [c] && ReplaceAll(p, u)[1..] == ReplaceAll(p, u[1..]);
          assert (w + [c])[0] == w[0] == u[0];
          OutputReflectsInput(p, u[1..], w[1..], c);
        }
      } else {
        MaskedIsVisible(p, u);
        InFirstGroup(u, hit.value.group, ReplaceAll(p, u[hit.value.end..]), w, c);
      }
    }
  }

  lemma InFirstGroup(u: string, g: nat, rest: string, w: string, c: char)
    requires g < |u| && '[' !in w && w + [c] <= u[..g] + MASK + rest
    ensures |w| <= g && w <= u && c == if |w| < g then u[|w|] else '['
  {
    var out := u[..g] + MASK + rest;
    assert (w + [c])[|w|] == c == out[|w|];
    assert forall i :: 0 <= i < |w| ==> w[i] == (w + [c])[i] == out[i];
    assert out[g] == '[';
    assert forall i :: 0 <= i < |w| ==> w[i] in w;
    assert forall i :: 0 <= i < g ==> out[i] == u[i];
  }

  /** `t` is a whole header and one token character, the blanks after `authorization:` ending at `a`. */
  ghost predicate HeaderAt(t: string, a: nat) {
    |t| > 0 && BearerParts(t, a, |t| - 1, |t|)
  }

  ghost predicate HeaderThenToken(t: string) {
    exists a: nat :: HeaderAt(t, a)
  }

  /** `s` starts with a match: a fixed part of length `n` (keyword and equals sign, or header) and a secret character. */
  ghost predicate Seed(p: Pattern, s: string, n: nat) {
    0 < n < |s| &&
    match p
    case Assignment => s[n - 1] == '=' && IsKeyword(s[..n - 1]) && IsVisible(s[n])
    case Bearer => HeaderThenToken(s[..n + 1])
  }

  lemma SeedOfHit(p: Pattern, s: string)
    requires MatchAt(p, s).Some?
    ensures Seed(p, s, MatchAt(p, s).value.group + if p == Assignment then 1 else 0)
  {
    if p == Assignment {
      KeywordIff(s, KeywordLength(s));
    } else {
      SeedOfHeader(s);
    }
  }

  lemma HeaderOfHit(s: string)
    requires MatchAt(Bearer, s).Some?
    ensures MatchAt(Bearer, s).value.group == HeaderLength(s) && 0 < HeaderLength(s) < |s|
    ensures IsTokenChar(s[HeaderLength(s)])
  {
  }

  lemma SeedOfHeader(s: string)
    requires MatchAt(Bearer, s).Some?
    ensures Seed(Bearer, s, MatchAt(Bearer, s).value.group)
  {
    hide MatchAt, HeaderLength, BearerParts, Begins;
    HeaderOfHit(s);
    var n := HeaderLength(s);
    var a := HeaderShape(s);
    PartsOfPrefix(s, n + 1, a, n, n + 1);
    assert HeaderAt(s[..n + 1], a);
  }

  lemma HitOfSeed(p: Pattern, s: string, n: nat)
    requires Seed(p, s, n)
    ensures MatchAt(p, s).Some? && n == MatchAt(p, s).value.group + if p == Assignment then 1 else 0
  {
    hide KeywordLength, HeaderLength, IsKeyword, Begins, IsBlank, RunLength;
    if p == Assignment {
      KeywordNotEmpty(s[..n - 1]);
      KeywordIff(s, n - 1);
      assert !IsBlank(s[n]) by { assert IsVisible(s[n]); }
    } else {
      var a: nat :| HeaderAt(s[..n + 1], a);
      BearerSplit(s, n + 1, a, n, n + 1);
    }
  }

  lemma NoBracket(word: string)
    requires IsKeyword(word)
    ensures forall i :: 0 <= i < |word| ==> word[i] !in {'[', '=', ':'}
  {
    forall i | 0 <= i < |word| ensures word[i] !in {'[', '=', ':'} {
      assert Lower(word)[i] == LowerChar(word[i]);
    }
  }

  /** The fixed part holds no bracket; its only equals sign or colon is where the pattern has one. */
  lemma SeedCharacters(p: Pattern, s: string, n: nat)
    requires Seed(p, s, n)
    ensures '[' !in s[..n]
    ensures p == Assignment ==> s[n - 1] == '=' && forall i :: 0 <= i < n - 1 ==> s[i] != '=' && s[i] != ':'
    ensures p == Bearer ==> n > 13 && s[13] == ':' && s[n] != '[' && forall i :: 0 <= i < n ==> s[i] != '=' && (s[i] == ':' ==> i == 13)
  {
    if p == Assignment {
      NoBracket(s[..n - 1]);
      assert forall i :: 0 <= i < n - 1 ==> s[i] == s[..n - 1][i];
    } else {
      HeaderCharacters(s[..n + 1], n);
      assert forall i :: 0 <= i <= n ==> s[i] == s[..n + 1][i];
    }
  }

  lemma HeaderCharacters(t: string, n: nat)
    requires |t| == n + 1 && HeaderThenToken(t)
    ensures n > 13 && t[13] == ':' && t[n] != '['
    ensures forall i :: 0 <= i < n ==> t[i] != '[' && t[i] != '=' && (t[i] == ':' ==> i == 13)
  {
    hide Begins;
    var a: nat :| HeaderAt(t, a);
    AuthorizationLetters(t);
    BearerLetters(t[a..]);
    BearerPlaces(t, a);
  }

  lemma BearerPlaces(t: string, a: nat)
    requires a + 6 <= |t| && forall i :: 0 <= i < 6 ==> t[a..][i] != '[' && t[a..][i] != '=' && t[a..][i] != ':'
    ensures forall i :: a <= i < a + 6 ==> t[i] != '[' && t[i] != '=' && t[i] != ':'
  {
    assert forall i :: a <= i < a + 6 ==> t[i] == t[a..][i - a];
  }

  lemma AuthorizationLetters(s: string)
    requires Begins(s, "authorization:")
    ensures s[13] == ':' && forall i :: 0 <= i < 13 ==> s[i] != '[' && s[i] != '=' && s[i] != ':'
  {
    var word := "authorization:";
    assert forall i :: 0 <= i < 13 ==> IsLetter(word[i]);
    assert forall i :: 0 <= i < 14 ==> LowerChar(s[i]) == word[i];
  }

  lemma BearerLetters(s: string)
    requires Begins(s, "bearer")
    ensures forall i :: 0 <= i < 6 ==> s[i] != '[' && s[i] != '=' && s[i] != ':'
  {
    var word := "bearer";
    assert forall i :: 0 <= i < 6 ==> IsLetter(word[i]);
    assert forall i :: 0 <= i < 6 ==> LowerChar(s[i]) == word[i];
  }

  /** A seed depends on its own characters only. */
  lemma SameSeed(p: Pattern, s: string, t: string, n: nat)
    requires Seed(p, s, n) && n < |t| && s[..n] == t[..n]
    requires t[n] == s[n] || (p == Assignment && IsVisible(t[n]))
    ensures Seed(p, t, n)
  {
    if p == Assignment {
      assert s[..n][..n - 1] == s[..n - 1] && t[..n][..n - 1] == t[..n - 1];
      assert s[..n][n - 1] == s[n - 1] && t[..n][n - 1] == t[n - 1];
    } else {
      assert s[..n + 1] == s[..n] + [s[n]] && t[..n + 1] == t[..n] + [t[n]];
    }
  }

  /** A replacement pass never makes a match at the start of a line that had none there. */
  lemma HeadNotCreated(q: Pattern, p: Pattern, u: string)
    ensures MatchAt(q, ReplaceAll(p, u)).Some? ==> MatchAt(q, u).Some?
  {
    hide MatchAt, ReplaceAll, Seed;
    var t := ReplaceAll(p, u);
    if MatchAt(q, t).Some? {
      SeedOfHit(q, t);
      var n: nat :| Seed(q, t, n);
      SeedInBounds(q, t, n);
      SeedCharacters(q, t, n);
      assert t[..n] + [t[n]] == t[..n + 1];
      OutputReflectsInput(p, u, t[..n], t[n]);
      SameSeed(q, t, u, n);
      HitOfSeed(q, u, n);
    }
  }

  lemma SeedInBounds(p: Pattern, s: string, n: nat)
    requires Seed(p, s, n)
    ensures 0 < n < |s|
  {
  }

  /** No match starts inside the part of a match that is kept. */
  lemma GroupSafe(q: Pattern, p: Pattern, u: string, i: nat, rest: string)
    requires MatchAt(p, u).Some? && i < MatchAt(p, u).value.group
    ensures MatchAt(q, u[i..MatchAt(p, u).value.group] + MASK + rest).None?
  {
    hide MatchAt, Seed;
    var g := MatchAt(p, u).value.group;
    var t := u[i..g] + MASK + rest;
    if MatchAt(q, t).Some? {
      SeedOfHit(q, t);
      var n: nat :| Seed(q, t, n);
      SeedInBounds(q, t, n);
      SeedOfHit(p, u);
      NoSeedInside(q, p, u, i, g, n, t);
    }
  }

  lemma BeforeBracket(t: string, n: nat, m: nat)
    requires n <= |t| && m < |t| && '[' !in t[..n] && t[m] == '['
    ensures n <= m
  {
    assert forall x :: 0 <= x < n ==> t[x] in t[..n];
  }

  lemma NoSeedInside(q: Pattern, p: Pattern, u: string, i: nat, g: nat, n: nat, t: string)
    requires Seed(p, u, g + if p == Assignment then 1 else 0) && i < g
    requires |t| > g - i && t[..g - i] == u[i..g] && t[g - i] == '['
    ensures !Seed(q, t, n)
  {
    hide Seed;
    SeedInBounds(p, u, g + if p == Assignment then 1 else 0);
    SeedCharacters(p, u, g + if p == Assignment then 1 else 0);
    if Seed(q, t, n) {
      SeedInBounds(q, t, n);
      SeedCharacters(q, t, n);
      BeforeBracket(t, n, g - i);
      Aligned(t, u, i, g);
      if q == Bearer && p == Bearer && i == 0 { SameHeader(t, u, g, n); }
    }
  }

  lemma Aligned(t: string, u: string, i: nat, g: nat)
    requires i < g <= |u| && |t| > g - i && t[..g - i] == u[i..g]
    ensures forall x :: 0 <= x < g - i ==> t[x] == u[i + x]
  {
    assert forall x :: 0 <= x < g - i ==> t[x] == t[..g - i][x] && u[i..g][x] == u[i + x];
  }

  /** Two headers that agree up to the end of one end together. */
  lemma SameHeader(t: string, u: string, g: nat, n: nat)
    requires Seed(Bearer, u, g) && Seed(Bearer, t, n) && n <= g < |u| && n < |t|
    requires g <= |t| && forall x :: 0 <= x < g ==> t[x] == u[x]
    ensures n == g
  {
    hide Seed;
    if n < g {
      assert t[..n] == u[..n];
      SameSeed(Bearer, t, u, n);
      HitOfSeed(Bearer, u, n);
      HitOfSeed(Bearer, u, g);
    }
  }

  lemma {:induction false} MaskSafe(q: Pattern, rest: string, i: nat)
    requires i <= |MASK| && Clean(q, rest)
    ensures Clean(q, MASK[i..] + rest)
    decreases |MASK| - i
  {
    if i == |MASK| {
      assert MASK[i..] + rest == rest;
    } else {
      hide MatchAt;
      MaskSafe(q, rest, i + 1);
      MaskHasNoMatch(q, rest, i);
      MaskTail(rest, i);
    }
  }

  lemma MaskTail(rest: string, i: nat)
    requires i < |MASK|
    ensures (MASK[i..] + rest)[1..] == MASK[i + 1..] + rest
  {
  }

  lemma MaskHasNoMatch(q: Pattern, rest: string, i: nat)
    requires i < |MASK|
    ensures MatchAt(q, MASK[i..] + rest).None?
  {
    MaskBeginsNothing(MASK[i..] + rest, i);
    hide Begins, RunLength;
  }

  /** No keyword and no header begins with a character of the mask. */
  lemma MaskBeginsNothing(t: string, i: nat)
    requires i < |MASK| && |t| >= |MASK| - i && forall k :: 0 <= k < |MASK| - i ==> t[k] == MASK[i + k]
    ensures !Begins(t, "password") && !Begins(t, "secret") && !Begins(t, "token") && !Begins(t, "api")
    ensures !Begins(t, "authorization:")
  {
    assert t[0] == MASK[i] && (i < 9 ==> t[1] == MASK[i + 1]);
    if i == 5 { assert LowerChar(t[0]) == 'c'; }
  }

  lemma {:induction false} GroupClean(q: Pattern, p: Pattern, u: string, i: nat, rest: string)
    requires MatchAt(p, u).Some? && i <= MatchAt(p, u).value.group && Clean(q, MASK + rest)
    ensures Clean(q, u[i..MatchAt(p, u).value.group] + MASK + rest)
    decreases MatchAt(p, u).value.group - i
  {
    hide MatchAt;
    var g := MatchAt(p, u).value.group;
    var t := u[i..g] + MASK + rest;
    if i == g {
      assert t == MASK + rest;
    } else {
      GroupSafe(q, p, u, i, rest);
      GroupClean(q, p, u, i + 1, rest);
      assert t[1..] == u[i + 1..g] + MASK + rest;
    }
  }

  lemma {:induction false} CleanSuffix(q: Pattern, s: string, i: nat)
    requires i <= |s| && Clean(q, s)
    ensures Clean(q, s[i..])
    decreases i
  {
    if i > 0 {
      CleanSuffix(q, s[1..], i - 1);
      assert s[1..][i - 1..] == s[i..];
    }
  }

  /** A pass removes every match of its own pattern and makes none of a pattern that was absent. */
  lemma {:induction false} PassCleans(q: Pattern, p: Pattern, u: string)
    requires q == p || Clean(q, u)
    ensures Clean(q, ReplaceAll(p, u))
    decreases |u|
  {
    if u != "" {
      HeadNotCreated(q, p, u);
      var hit := MatchAt(p, u);
      if hit.None? {
        PassCleans(q, p, u[1..]);
        assert ReplaceAll(p, u)[1..] == ReplaceAll(p, u[1..]);
      } else {
        var rest := u[hit.value.end..];
        if Clean(q, u) { CleanSuffix(q, u, hit.value.end); }
        PassCleans(q, p, rest);
        MaskSafe(q, ReplaceAll(p, rest), 0);
        assert MASK[0..] == MASK;
        GroupClean(q, p, u, 0, ReplaceAll(p, rest));
        assert u[0..hit.value.group] == u[..hit.value.group];
      }
    }
  }

  lemma {:induction false} ReplaceNothing(p: Pattern, s: string)
    ensures Clean(p, s) ==> ReplaceAll(p, s) == s
    decreases |s|
  {
    if s != "" { ReplaceNothing(p, s[1..]); }
  }

  /** After redaction no substring matches either secret pattern. */
  lemma RedactedLeaksNothing(line: string)
    ensures !Leaks(Assignment, Redact(line)) && !Leaks(Bearer, Redact(line))
  {
    var once := ReplaceAll(Assignment, line);
    PassCleans(Assignment, Assignment, line);
    PassCleans(Assignment, Bearer, once);
    PassCleans(Bearer, Bearer, once);
    CleanIffNoLeak(Assignment, Redact(line));
    CleanIffNoLeak(Bearer, Redact(line));
  }

  lemma RedactIdempotent(line: string)
    ensures Redact(Redact(line)) == Redact(line)
  {
    RedactedLeaksNothing(line);
    CleanIffNoLeak(Assignment, Redact(line));
    CleanIffNoLeak(Bearer, Redact(line));
    ReplaceNothing(Assignment, Redact(line));
    ReplaceNothing(Bearer, Redact(line));
  }

  /** A line is left alone exactly when it holds no secret. */
  lemma RedactKeepsIff(line: string)
    ensures Redact(line) == line <==> !Leaks(Assignment, line) && !Leaks(Bearer, line)
  {
    if Redact(line) == line {
      RedactedLeaksNothing(line);
    } else {
      CleanIffNoLeak(Assignment, line);
      CleanIffNoLeak(Bearer, line);
      ReplaceNothing(Assignment, line);
      ReplaceNothing(Bearer, line);
    }
  }

  // ---------------------------------------------------------------- nothing but secrets is replaced

  /** A line cut up: characters that are kept, and secrets with the group that is kept and the part that is masked. */
  datatype Piece = Plain(c: char) | Secret(head: string, masked: string)
  {
    function Text(): string { if Plain? then [c] else head + masked }

    function Shown(): string { if Plain? then [c] else head + MASK }
  }

  function Original(pieces: seq<Piece>): string {
    if pieces == [] then ""
    else pieces[0].Text() + Original(pieces[1..])
  }

  function Masked(pieces: seq<Piece>): string {
    if pieces == [] then ""
    else pieces[0].Shown() + Masked(pieces[1..])
  }

  /** `head` is the pattern's first group in the match `head + masked`. */
  ghost predicate Splits(p: Pattern, head: string, masked: string) {
    if p == Assignment then AssignmentParts(head + masked, |head|)
    else exists a: nat, d: nat :: BearerParts(head + masked, a, |head|, d)
  }

  /** No match at the start of `s` is longer than `n`. */
  ghost predicate NoneLonger(p: Pattern, s: string, n: nat) {
    forall j: nat :: n < j <= |s| ==> !Matches(p, s[..j])
  }

  /** No match begins at a kept character, and a secret is the longest match there. */
  ghost predicate Fits(p: Pattern, piece: Piece, s: string) {
    if piece.Plain? then NoneLonger(p, s, 0)
    else Splits(p, piece.head, piece.masked) && NoneLonger(p, s, |piece.Text()|)
  }

  /** The leftmost longest cut. */
  ghost predicate LeftmostLongest(p: Pattern, pieces: seq<Piece>) {
    pieces != [] ==> LeftmostLongest(p, pieces[1..]) && Fits(p, pieces[0], Original(pieces))
  }

  lemma HitSplits(p: Pattern, s: string)
    requires MatchAt(p, s).Some?
    ensures var hit := MatchAt(p, s).value; Splits(p, s[..hit.group], s[hit.group..hit.end])
  {
    hide MatchAt, AssignmentParts, BearerParts;
    var hit := MatchAt(p, s).value;
    assert s[..hit.group] + s[hit.group..hit.end] == s[..hit.end];
    if p == Assignment { AssignmentFound(s); } else { BearerFound(s); }
  }

  /** The first group of a match is determined by the text. */
  lemma SplitsAtGroup(p: Pattern, s: string, head: string, masked: string)
    requires head + masked <= s && Splits(p, head, masked)
    ensures MatchAt(p, s).Some? && MatchAt(p, s).value.group == |head| && Matches(p, head + masked)
  {
    var j := |head + masked|;
    assert s[..j] == head + masked;
    if p == Assignment {
      AssignmentLongest(s, j, |head|);
      assert s[..j][..|head|] == s[..|head|];
      KeywordNotEmpty(s[..|head|]);
      KeywordIff(s, |head|);
    } else {
      var a: nat, d: nat :| BearerParts(s[..j], a, |head|, d);
      BearerSplit(s, j, a, |head|, d);
      BearerLongest(s, j, a, |head|, d);
    }
  }

  lemma ReplacePlain(p: Pattern, c: char, s: string)
    requires s != "" && s[0] == c && NoneLonger(p, s, 0)
    ensures ReplaceAll(p, s) == [c] + ReplaceAll(p, s[1..])
  {
    HitIsLongest(p, s);
  }

  lemma SecretHit(p: Pattern, head: string, masked: string, s: string)
    requires head + masked <= s && Splits(p, head, masked) && NoneLonger(p, s, |head + masked|)
    ensures MatchAt(p, s) == Some(Hit(|head|, |head + masked|))
  {
    hide MatchAt, Matches, Splits;
    SplitsAtGroup(p, s, head, masked);
    HitIsLongest(p, s);
    assert s[..|head + masked|] == head + masked;
  }

  lemma ReplaceSecret(p: Pattern, head: string, masked: string, s: string)
    requires head + masked <= s && Splits(p, head, masked) && NoneLonger(p, s, |head + masked|)
    ensures ReplaceAll(p, s) == head + MASK + ReplaceAll(p, s[|head + masked|..])
  {
    hide MatchAt, Splits, NoneLonger;
    SecretHit(p, head, masked, s);
    assert s[..|head|] == head;
  }

  lemma ReplaceStep(p: Pattern, pieces: seq<Piece>)
    requires pieces != [] && LeftmostLongest(p, pieces)
    ensures var s, rest := Original(pieces), Original(pieces[1..]);
            ReplaceAll(p, s) == pieces[0].Shown() + ReplaceAll(p, rest)
  {
    hide ReplaceAll, Splits, NoneLonger;
    var s, rest, n := Original(pieces), Original(pieces[1..]), |pieces[0].Text()|;
    assert s[..n] == pieces[0].Text() && s[n..] == rest;
    match pieces[0]
    case Plain(c) => ReplacePlain(p, c, s);
    case Secret(head, masked) => ReplaceSecret(p, head, masked, s);
  }

  /** Redaction is determined by the leftmost longest cut, whatever computes it. */
  lemma {:induction false} ReplaceAllIsLeftmostLongest(p: Pattern, pieces: seq<Piece>)
    requires LeftmostLongest(p, pieces)
    ensures ReplaceAll(p, Original(pieces)) == Masked(pieces)
  {
    if pieces != [] {
      ReplaceAllIsLeftmostLongest(p, pieces[1..]);
      ReplaceStep(p, pieces);
    }
  }

  function FirstPiece(p: Pattern, s: string): Piece
    requires s != ""
  {
    match MatchAt(p, s)
    case Some(hit) => Secret(s[..hit.group], s[hit.group..hit.end])
    case None => Plain(s[0])
  }

  lemma FirstFits(p: Pattern, s: string)
    requires s != ""
    ensures Fits(p, FirstPiece(p, s), s)
    ensures FirstPiece(p, s).Text() != "" && FirstPiece(p, s).Text() <= s
  {
    hide Matches, Splits, MatchAt;
    HitIsLongest(p, s);
    if MatchAt(p, s).Some? { HitSplits(p, s); }
  }

  /** Every line has such a cut. */
  lemma {:induction false} LeftmostLongestExists(p: Pattern, s: string) returns (pieces: seq<Piece>)
    ensures Original(pieces) == s && LeftmostLongest(p, pieces)
    decreases |s|
  {
    pieces := [];
    if s != "" {
      hide Fits, FirstPiece, LeftmostLongest, Original;
      var first := FirstPiece(p, s);
      FirstFits(p, s);
      var tail := LeftmostLongestExists(p, s[|first.Text()|..]);
      Rejoin(first.Text(), s);
      pieces := [first] + tail;
      CutGrows(p, s, first, tail);
    }
  }

  lemma Rejoin(t: string, s: string)
    requires t <= s
    ensures t + s[|t|..] == s
  {
  }

  lemma CutGrows(p: Pattern, s: string, first: Piece, tail: seq<Piece>)
    requires LeftmostLongest(p, tail)
    requires s == first.Text() + Original(tail) && Fits(p, first, s)
    ensures Original([first] + tail) == s && LeftmostLongest(p, [first] + tail)
  {
    hide Fits;
    assert ([first] + tail)[1..] == tail;
  }

  /**
   Redaction, both passes: the assignments of the line are masked first, and the bearer tokens of what that
   leaves second.  With the cuts of each pass given, the result is determined.
   */
  lemma RedactIsTwoCuts(line: string, first: seq<Piece>, second: seq<Piece>)
    requires LeftmostLongest(Assignment, first) && Original(first) == line
    requires LeftmostLongest(Bearer, second) && Original(second) == Masked(first)
    ensures Redact(line) == Masked(second)
  {
    ReplaceAllIsLeftmostLongest(Assignment, first);
    ReplaceAllIsLeftmostLongest(Bearer, second);
  }

  /** Each assignment's value is gone before bearer tokens are looked for, so no part of it can survive as a token's rest. */
  lemma AssignmentsGoFirst(line: string) returns (first: seq<Piece>, second: seq<Piece>)
    ensures Original(first) == line && LeftmostLongest(Assignment, first)
    ensures Original(second) == Masked(first) && LeftmostLongest(Bearer, second)
    ensures !Leaks(Assignment, Original(second)) && Redact(line) == Masked(second)
  {
    first := LeftmostLongestExists(Assignment, line);
    second := LeftmostLongestExists(Bearer, Masked(first));
    RedactIsTwoCuts(line, first, second);
    ReplaceAllIsLeftmostLongest(Assignment, first);
    PassCleans(Assignment, Assignment, line);
    CleanIffNoLeak(Assignment, Masked(first));
  }
}
