/**
 * String operations with the ECMAScript meaning the application relies on:
 * white-space trimming, ASCII case mapping, case-insensitive matching as done
 * by a regular expression with the `i` flag, and stripping runs of slashes.
 */
module JsString {

  /** ECMAScript StrWhiteSpaceChar: the WhiteSpace and LineTerminator code points. */
  predicate IsWhiteSpace(c: char) {
    || c == '\t' || c == '\n' || c == '\U{000B}' || c == '\U{000C}' || c == '\r'
    || c == ' ' || c == '\U{00A0}' || c == '\U{1680}' || ('\U{2000}' <= c <= '\U{200A}')
    || c == '\U{2028}' || c == '\U{2029}' || c == '\U{202F}' || c == '\U{205F}'
    || c == '\U{3000}' || c == '\U{FEFF}'
  }

  predicate AllWhiteSpace(s: string) {
    forall i :: 0 <= i < |s| ==> IsWhiteSpace(s[i])
  }

  /** `String.prototype.trimStart`: drops the longest white-space prefix. */
  function TrimStart(s: string): (r: string)
    ensures |r| <= |s| && r == s[|s| - |r|..]
    ensures AllWhiteSpace(s[..|s| - |r|])
    ensures r == [] || !IsWhiteSpace(r[0])
  {
    if |s| > 0 && IsWhiteSpace(s[0]) then
      var r := TrimStart(s[1..]);
      assert s[..|s| - |r|] == [s[0]] + s[1..][..|s[1..]| - |r|];
      r
    else s
  }

  /** `String.prototype.trimEnd`: drops the longest white-space suffix. */
  function TrimEnd(s: string): (r: string)
    ensures |r| <= |s| && r == s[..|r|]
    ensures AllWhiteSpace(s[|r|..])
    ensures r == [] || !IsWhiteSpace(r[|r| - 1])
  {
    if |s| > 0 && IsWhiteSpace(s[|s| - 1]) then
      var r := TrimEnd(s[..|s| - 1]);
      assert s[|r|..] == s[..|s| - 1][|r|..] + [s[|s| - 1]];
      r
    else s
  }

  /** `String.prototype.trim`: the part of `s` left between its leading and its trailing white space. */
  function Trim(s: string): (r: string)
    ensures exists i :: 0 <= i <= |s| - |r| && r == s[i..i + |r|] && AllWhiteSpace(s[..i]) && AllWhiteSpace(s[i + |r|..])
    ensures r == [] || (!IsWhiteSpace(r[0]) && !IsWhiteSpace(r[|r| - 1]))
  {
    var t := TrimStart(s);
    var r := TrimEnd(t);
    SliceOfSlice(s, t, r);
    r
  }

  /** Lemma: a white-space-free start cut from a white-space-free end leaves a slice between white-space margins. */
  lemma SliceOfSlice(s: string, t: string, r: string)
    requires |t| <= |s| && t == s[|s| - |t|..] && AllWhiteSpace(s[..|s| - |t|])
    requires |r| <= |t| && r == t[..|r|] && AllWhiteSpace(t[|r|..])
    requires t == [] || !IsWhiteSpace(t[0])
    ensures exists i :: 0 <= i <= |s| - |r| && r == s[i..i + |r|] && AllWhiteSpace(s[..i]) && AllWhiteSpace(s[i + |r|..])
    ensures r == [] || !IsWhiteSpace(r[0])
  {
    var i := |s| - |t|;
    assert s[i + |r|..] == t[|r|..];
    assert r != [] ==> r[0] == t[0];
    assert 0 <= i <= |s| - |r| && r == s[i..i + |r|] && AllWhiteSpace(s[..i]) && AllWhiteSpace(s[i + |r|..]);
  }

  /** Trimming leaves something exactly when the string holds a non-white-space character. */
  lemma TrimNonEmptyIff(s: string)
    ensures |Trim(s)| > 0 <==> exists i :: 0 <= i < |s| && !IsWhiteSpace(s[i])
  {
    var t := TrimStart(s);
    var u := TrimEnd(t);
    if |u| > 0 {
      assert u[0] == t[0] == s[|s| - |t|];
    }
  }

  /** Lemma: white space before a non-white-space start is exactly what `TrimStart` removes. */
  lemma {:induction false} TrimStartSkips(ws: string, u: string)
    requires AllWhiteSpace(ws)
    requires u == [] || !IsWhiteSpace(u[0])
    ensures TrimStart(ws + u) == u
  {
    if |ws| > 0 {
      assert (ws + u)[1..] == ws[1..] + u;
      TrimStartSkips(ws[1..], u);
    } else {
      assert ws + u == u;
    }
  }

  predicate IsAsciiLower(c: char) { 'a' <= c <= 'z' }

  /** Upper-case mapping of one character, restricted to ASCII letters. */
  function UpperChar(c: char): char {
    if IsAsciiLower(c) then (c as int - 32) as char else c
  }

  /** `toUpperCase` on ASCII letters; every other character is kept. */
  function ToUpper(s: string): (r: string)
    ensures |r| == |s|
    ensures forall i :: 0 <= i < |s| ==> r[i] == UpperChar(s[i])
  {
    seq(|s|, i requires 0 <= i < |s| => UpperChar(s[i]))
  }

  /** After upper-casing no ASCII lower-case letter is left, only those letters changed, and doing it again changes nothing. */
  lemma ToUpperNormalises(s: string)
    ensures forall i :: 0 <= i < |s| ==> !IsAsciiLower(ToUpper(s)[i])
    ensures forall i :: 0 <= i < |s| && !IsAsciiLower(s[i]) ==> ToUpper(s)[i] == s[i]
    ensures ToUpper(ToUpper(s)) == ToUpper(s)
  {
  }

  /**
   * Character equality as seen by a regular expression with the `i` flag and
   * no `u` flag when the pattern character is ASCII: both sides are
   * canonicalised by upper-casing, and a non-ASCII character never
   * canonicalises to an ASCII one.
   */
  predicate SameIgnoringCase(c: char, d: char) {
    UpperChar(c) == UpperChar(d)
  }

  /** `s` starts with `p`, ignoring ASCII case. */
  predicate StartsWithIgnoringCase(s: string, p: string) {
    |p| <= |s| && forall i :: 0 <= i < |p| ==> SameIgnoringCase(s[i], p[i])
  }

  /** Unanchored regular-expression test `/p/i.test(s)` for a literal pattern `p`. */
  function ContainsIgnoringCase(s: string, p: string): (r: bool)
    ensures r <==> exists k :: 0 <= k <= |s| - |p| && StartsWithIgnoringCase(s[k..], p)
    decreases |s|
  {
    if StartsWithIgnoringCase(s, p) then
      assert s[0..] == s;
      true
    else if |s| == 0 then false
    else
      var r := ContainsIgnoringCase(s[1..], p);
      assert forall k :: 1 <= k <= |s| ==> s[k..] == s[1..][k - 1..];
      assert r ==> exists k :: 0 <= k <= |s| - |p| && StartsWithIgnoringCase(s[k..], p) by {
        if r {
          var k :| 0 <= k <= |s[1..]| - |p| && StartsWithIgnoringCase(s[1..][k..], p);
          assert s[k + 1..] == s[1..][k..];
        }
      }
      r
  }

  /** Removes every trailing '/' (the replacement of `/\/+$/` by the empty string). */
  function StripTrailingSlashes(s: string): (r: string)
    ensures |r| <= |s| && r == s[..|r|]
    ensures forall i :: |r| <= i < |s| ==> s[i] == '/'
    ensures r == [] || r[|r| - 1] != '/'
  {
    if |s| > 0 && s[|s| - 1] == '/' then StripTrailingSlashes(s[..|s| - 1]) else s
  }

  /** Removes every leading '/' (the replacement of `/^\/+/` by the empty string). */
  function StripLeadingSlashes(s: string): (r: string)
    ensures |r| <= |s| && r == s[|s| - |r|..]
    ensures forall i :: 0 <= i < |s| - |r| ==> s[i] == '/'
    ensures r == [] || r[0] != '/'
  {
    if |s| > 0 && s[0] == '/' then StripLeadingSlashes(s[1..]) else s
  }

  /** Any number of extra leading slashes is stripped away to the same remainder. */
  lemma {:induction false} StripLeadingSlashesAbsorbs(k: nat, u: string)
    ensures StripLeadingSlashes(Slashes(k) + u) == StripLeadingSlashes(u)
  {
    if k > 0 {
      assert (Slashes(k) + u)[1..] == Slashes(k - 1) + u;
      StripLeadingSlashesAbsorbs(k - 1, u);
    } else {
      assert Slashes(k) + u == u;
    }
  }

  /** A text is its slash-free head followed by the slashes `StripTrailingSlashes` removed. */
  lemma StripTrailingSlashesSplits(s: string)
    ensures var r := StripTrailingSlashes(s); s == r + Slashes(|s| - |r|)
  {
    var r := StripTrailingSlashes(s);
    var tail := s[|r|..];
    assert tail == Slashes(|s| - |r|);
    assert s == r + tail;
  }

  /** A text is the slashes `StripLeadingSlashes` removed followed by what it keeps. */
  lemma StripLeadingSlashesSplits(s: string)
    ensures var r := StripLeadingSlashes(s); s == Slashes(|s| - |r|) + r
  {
    var r := StripLeadingSlashes(s);
    var head := s[..|s| - |r|];
    assert head == Slashes(|s| - |r|);
    assert s == head + r;
  }

  /** A run of `k` slashes. */
  function Slashes(k: nat): (r: string)
    ensures |r| == k && forall i :: 0 <= i < k ==> r[i] == '/'
  {
    seq(k, i => '/')
  }
}
