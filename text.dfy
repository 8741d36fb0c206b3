/**
 * The string operations the application applies to user input:
 * JavaScript's `String.prototype.trim`, an ASCII model of `toLowerCase`,
 * and `startsWith`.
 */
module Text {
  import opened Wrappers

  /** The code points `trim` removes: ECMAScript WhiteSpace and LineTerminator. */
  predicate IsWhiteSpace(c: char) {
    || c == ' ' || c == '\t' || c == '\n' || c == '\r'
    || c == '\U{000B}' || c == '\U{000C}' || c == '\U{00A0}' || c == '\U{1680}'
    || ('\U{2000}' <= c <= '\U{200A}')
    || c == '\U{2028}' || c == '\U{2029}' || c == '\U{202F}' || c == '\U{205F}'
    || c == '\U{3000}' || c == '\U{FEFF}'
  }

  /** A string that `trim` reduces to the empty string (a falsy `title.trim()`). */
  predicate IsBlank(s: string) {
    forall i :: 0 <= i < |s| ==> IsWhiteSpace(s[i])
  }

  /** The length of the white-space prefix of `s`. */
  function LeadingSpaces(s: string): (n: nat)
    ensures n <= |s|
    ensures forall i :: 0 <= i < n ==> IsWhiteSpace(s[i])
    ensures n < |s| ==> !IsWhiteSpace(s[n])
  {
    if |s| == 0 || !IsWhiteSpace(s[0]) then 0 else 1 + LeadingSpaces(s[1..])
  }

  /** The length of the white-space suffix of `s`. */
  function TrailingSpaces(s: string): (n: nat)
    ensures n <= |s|
    ensures forall i :: |s| - n <= i < |s| ==> IsWhiteSpace(s[i])
    ensures n < |s| ==> !IsWhiteSpace(s[|s| - 1 - n])
  {
    if |s| == 0 || !IsWhiteSpace(s[|s| - 1]) then 0 else 1 + TrailingSpaces(s[..|s| - 1])
  }

  /**
   * `s.trim()`: the longest infix of `s` that neither starts nor ends with
   * white space, obtained by cutting white space only.
   */
  function Trim(s: string): (r: string)
    ensures |r| <= |s|
    ensures r == [] <==> IsBlank(s)
    ensures r != [] ==> !IsWhiteSpace(r[0]) && !IsWhiteSpace(r[|r| - 1])
    ensures exists lo :: 0 <= lo <= |s| - |r| && r == s[lo..lo + |r|]
                         && IsBlank(s[..lo]) && IsBlank(s[lo + |r|..])
  {
    var lo := LeadingSpaces(s);
    var t := TrailingSpaces(s[lo..]);
    TrimShape(s, lo, s[lo..], t);
    s[lo..|s| - t]
  }

  /**
   * Cutting a white-space prefix of length `lo` that stops at a
   * non-white-space character, then a white-space suffix of length `t` of
   * the rest that stops likewise, leaves the infix `Trim` promises.
   */
  lemma TrimShape(s: string, lo: nat, rest: string, t: nat)
    requires lo <= |s| && rest == s[lo..] && t <= |rest|
    requires forall i :: 0 <= i < lo ==> IsWhiteSpace(s[i])
    requires lo < |s| ==> !IsWhiteSpace(s[lo])
    requires forall i :: |rest| - t <= i < |rest| ==> IsWhiteSpace(rest[i])
    requires t < |rest| ==> !IsWhiteSpace(rest[|rest| - 1 - t])
    ensures var r := s[lo..|s| - t];
            && (r == [] <==> IsBlank(s))
            && (r != [] ==> !IsWhiteSpace(r[0]) && !IsWhiteSpace(r[|r| - 1]))
            && r == s[lo..lo + |r|] && IsBlank(s[..lo]) && IsBlank(s[lo + |r|..])
  {
    var hi := |s| - t;
    var r := s[lo..hi];
    PrefixBlank(s, lo);
    SuffixBlank(s, lo, rest, t);
    if lo < hi {
      var j := |rest| - 1 - t;
      assert rest[j] == s[hi - 1];
      assert r[0] == s[lo] && r[|r| - 1] == s[hi - 1];
    } else {
      BlankJoin(s, lo);
    }
    assert s[lo + |r|..] == s[hi..];
  }

  lemma PrefixBlank(s: string, lo: nat)
    requires lo <= |s|
    requires forall i :: 0 <= i < lo ==> IsWhiteSpace(s[i])
    ensures IsBlank(s[..lo])
  {
    var p := s[..lo];
    forall i | 0 <= i < |p| ensures IsWhiteSpace(p[i]) {
      assert p[i] == s[i];
    }
  }

  lemma SuffixBlank(s: string, lo: nat, rest: string, t: nat)
    requires lo <= |s| && rest == s[lo..] && t <= |rest|
    requires forall i :: |rest| - t <= i < |rest| ==> IsWhiteSpace(rest[i])
    ensures IsBlank(s[|s| - t..])
  {
    var tail := s[|s| - t..];
    forall i | 0 <= i < |tail| ensures IsWhiteSpace(tail[i]) {
      assert tail[i] == rest[|rest| - t + i];
    }
  }

  lemma BlankJoin(s: string, k: nat)
    requires k <= |s| && IsBlank(s[..k]) && IsBlank(s[k..])
    ensures IsBlank(s)
  {
    forall i | 0 <= i < |s| ensures IsWhiteSpace(s[i]) {
      if i < k { assert s[i] == s[..k][i]; } else { assert s[i] == s[k..][i - k]; }
    }
  }

  /** Trimming is idempotent: a trimmed title trims to itself. */
  lemma TrimIdempotent(s: string)
    ensures Trim(Trim(s)) == Trim(s)
  {
    var r := Trim(s);
    if r != [] {
      assert LeadingSpaces(r) == 0;
      assert TrailingSpaces(r) == 0;
    }
  }

  /**
   * The title a form keeps from what was typed: `title.trim()` when it is
   * not empty, nothing for a blank title. What it keeps is non-empty and
   * already trimmed.
   */
  function NonBlank(s: string): (r: Option<string>)
    ensures r.None? <==> IsBlank(s)
    ensures r.Some? ==> r.value == Trim(s) && r.value != [] && Trim(r.value) == r.value
  {
    TrimIdempotent(s);
    if Trim(s) == [] then None else Some(Trim(s))
  }

  /** `toLowerCase` on one character, restricted to ASCII letters. */
  function LowerChar(c: char): (d: char)
    ensures !('A' <= d <= 'Z')
    ensures 'a' <= d <= 'z' <==> 'A' <= c <= 'Z' || 'a' <= c <= 'z'
  {
    if 'A' <= c <= 'Z' then (c as int + 32) as char else c
  }

  /** `s.toLowerCase()`, character by character. */
  function Lower(s: string): (r: string)
    ensures |r| == |s|
    ensures forall i :: 0 <= i < |s| ==> r[i] == LowerChar(s[i])
  {
    seq(|s|, i requires 0 <= i < |s| => LowerChar(s[i]))
  }

  /** Lower-casing twice is lower-casing once, so stored names are their own lookup key. */
  lemma LowerIdempotent(s: string)
    ensures Lower(Lower(s)) == Lower(s)
  {
    var a, b := Lower(Lower(s)), Lower(s);
    assert |a| == |b|;
    forall i | 0 <= i < |a| ensures a[i] == b[i] {
      assert LowerChar(LowerChar(s[i])) == LowerChar(s[i]);
    }
  }

  /** A string without upper-case letters is its own lower-case form. */
  lemma LowerOfLowerCase(s: string)
    requires forall i :: 0 <= i < |s| ==> !('A' <= s[i] <= 'Z')
    ensures Lower(s) == s
  {
    assert forall i :: 0 <= i < |s| ==> Lower(s)[i] == s[i];
  }

  /** `s.startsWith(prefix)`. */
  predicate StartsWith(s: string, prefix: string) {
    |prefix| <= |s| && s[..|prefix|] == prefix
  }

  /**
   * JavaScript's `length`: the number of UTF-16 code units, two for a
   * character outside the Basic Multilingual Plane.
   */
  function JsLength(s: string): (n: nat)
    ensures |s| <= n <= 2 * |s|
  {
    if s == [] then 0 else (if s[0] as int > 0xFFFF then 2 else 1) + JsLength(s[1..])
  }

  /** `length` counts characters exactly when every character lies in the Basic Multilingual Plane. */
  lemma {:induction false} JsLengthCountsChars(s: string)
    ensures JsLength(s) == |s| <==> forall i :: 0 <= i < |s| ==> s[i] as int <= 0xFFFF
  {
    if s != [] {
      JsLengthCountsChars(s[1..]);
      forall i | 0 < i < |s| ensures s[1..][i - 1] == s[i] {
      }
    }
  }

  /** Three emoji are six code units long, so JavaScript's `length` check lets them through as a six-character password. */
  lemma ThreeEmoji()
    ensures |"\U{1F600}\U{1F600}\U{1F600}"| == 3 && JsLength("\U{1F600}\U{1F600}\U{1F600}") == 6
  {
  }
}
