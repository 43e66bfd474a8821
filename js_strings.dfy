/**
 * The JavaScript string built-ins that the modelled code relies on:
 * `trim`, `toLowerCase`, `startsWith`, `endsWith`, `includes`, `replaceAll`
 * and `length` (counted in UTF-16 code units).
 */
module JsStrings {

  /** ECMAScript WhiteSpace and LineTerminator code points, the set `String.prototype.trim` removes. */
  predicate IsWhitespace(c: char) {
    c == '\U{0009}' || c == '\U{000A}' || c == '\U{000B}' || c == '\U{000C}' || c == '\U{000D}'
    || c == '\U{0020}' || c == '\U{00A0}' || c == '\U{1680}'
    || ('\U{2000}' <= c <= '\U{200A}')
    || c == '\U{2028}' || c == '\U{2029}' || c == '\U{202F}' || c == '\U{205F}'
    || c == '\U{3000}' || c == '\U{FEFF}'
  }

  predicate AllWhitespace(s: string) {
    forall i :: 0 <= i < |s| ==> IsWhitespace(s[i])
  }

  /** `s.trimStart()`: `s` without its leading white space. */
  function TrimStart(s: string): (r: string)
    ensures |r| <= |s|
  {
    if s != [] && IsWhitespace(s[0]) then TrimStart(s[1..]) else s
  }

  /** `s.trimEnd()`: `s` without its trailing white space. */
  function TrimEnd(s: string): (r: string)
    ensures |r| <= |s|
  {
    if s != [] && IsWhitespace(s[|s| - 1]) then TrimEnd(s[..|s| - 1]) else s
  }

  /** `s.trim()`: `s` without its leading and trailing white space. */
  function Trim(s: string): (r: string)
    ensures |r| <= |s|
  {
    TrimEnd(TrimStart(s))
  }

  /** `trimStart` keeps a suffix that does not begin with white space. */
  lemma {:induction false} TrimStartShape(s: string)
    ensures |TrimStart(s)| <= |s| && TrimStart(s) == s[|s| - |TrimStart(s)|..]
    ensures TrimStart(s) != [] ==> !IsWhitespace(TrimStart(s)[0])
  {
    if s != [] && IsWhitespace(s[0]) {
      TrimStartShape(s[1..]);
    }
  }

  /** `trimEnd` keeps a prefix that does not end with white space. */
  lemma {:induction false} TrimEndShape(s: string)
    ensures |TrimEnd(s)| <= |s| && TrimEnd(s) == s[..|TrimEnd(s)|]
    ensures TrimEnd(s) != [] ==> !IsWhitespace(TrimEnd(s)[|TrimEnd(s)| - 1])
  {
    if s != [] && IsWhitespace(s[|s| - 1]) {
      TrimEndShape(s[..|s| - 1]);
    }
  }

  /** `trim` keeps a contiguous part of its input, with no white space at either end. */
  lemma TrimShape(s: string)
    ensures var a := |s| - |TrimStart(s)|;
      a + |Trim(s)| <= |s| && Trim(s) == s[a..a + |Trim(s)|]
    ensures Trim(s) != [] ==> !IsWhitespace(Trim(s)[0]) && !IsWhitespace(Trim(s)[|Trim(s)| - 1])
  {
    TrimStartShape(s);
    TrimEndShape(TrimStart(s));
  }

  /** What `trimStart` removes is white space. */
  lemma {:induction false} TrimStartRemovesWhitespace(s: string)
    ensures AllWhitespace(s[..|s| - |TrimStart(s)|])
  {
    TrimStartShape(s);
    if s != [] && IsWhitespace(s[0]) {
      TrimStartRemovesWhitespace(s[1..]);
      TrimStartShape(s[1..]);
      var k := |s| - |TrimStart(s)|;
      forall i | 0 <= i < k ensures IsWhitespace(s[i]) {
        if i > 0 { assert s[i] == s[1..][..k - 1][i - 1]; }
      }
    }
  }

  /** What `trimEnd` removes is white space. */
  lemma {:induction false} TrimEndRemovesWhitespace(s: string)
    ensures AllWhitespace(s[|TrimEnd(s)|..])
  {
    TrimEndShape(s);
    if s != [] && IsWhitespace(s[|s| - 1]) {
      var t := s[..|s| - 1];
      TrimEndRemovesWhitespace(t);
      TrimEndShape(t);
      var k := |TrimEnd(s)|;
      forall i | k <= i < |s| ensures IsWhitespace(s[i]) {
        if i < |s| - 1 { assert s[i] == t[k..][i - k]; }
      }
    }
  }

  /** `trim` yields `""` exactly for strings made only of white space. */
  lemma TrimEmptyIff(s: string)
    ensures Trim(s) == [] <==> AllWhitespace(s)
  {
    var t := TrimStart(s);
    TrimShape(s);
    TrimStartShape(s);
    TrimStartRemovesWhitespace(s);
    TrimEndRemovesWhitespace(t);
    if Trim(s) == [] {
      assert s == s[..|s| - |t|] + t;
      assert t[0..] == t;
    } else {
      var r := Trim(s);
      assert r[0] == t[0] == s[|s| - |t|];
    }
  }

  /** Trimming leaves a string with no white space at either end unchanged. */
  lemma TrimOfTrimmed(s: string)
    requires s != [] ==> !IsWhitespace(s[0]) && !IsWhitespace(s[|s| - 1])
    ensures Trim(s) == s
  {
  }

  /** Trimming is idempotent. */
  lemma TrimIdempotent(s: string)
    ensures Trim(Trim(s)) == Trim(s)
  {
    TrimShape(s);
    TrimOfTrimmed(Trim(s));
  }

  /**
   * Trailing white space is removed from the right operand first: when `b`
   * keeps some text after `trimEnd`, only `b`'s tail is affected; otherwise
   * trimming continues into `a`.
   */
  lemma {:induction false} TrimEndAppend(a: string, b: string)
    ensures TrimEnd(b) != [] ==> TrimEnd(a + b) == a + TrimEnd(b)
    ensures TrimEnd(b) == [] ==> TrimEnd(a + b) == TrimEnd(a)
    decreases |b|
  {
    if b == [] {
      assert a + b == a;
    } else if IsWhitespace(b[|b| - 1]) {
      assert (a + b)[..|a + b| - 1] == a + b[..|b| - 1];
      TrimEndAppend(a, b[..|b| - 1]);
    }
  }

  /** `s.toLowerCase()` on ASCII letters; every other code point is kept. */
  function ToLowerAscii(s: string): (r: string)
    ensures |r| == |s|
    ensures forall i :: 0 <= i < |s| ==> r[i] == LowerAscii(s[i])
  {
    if s == [] then [] else [LowerAscii(s[0])] + ToLowerAscii(s[1..])
  }

  function LowerAscii(c: char): char {
    if 'A' <= c <= 'Z' then (c as int + 32) as char else c
  }

  /** `a` and `b` are equal once both are lower-cased (ASCII letters only). */
  predicate SameIgnoringCase(a: string, b: string) {
    |a| == |b| && forall i :: 0 <= i < |a| ==> LowerAscii(a[i]) == LowerAscii(b[i])
  }

  /** Comparing the lower-cased text with a lower-case word ignores case. */
  lemma LowerIsWord(t: string, w: string)
    requires ToLowerAscii(w) == w
    ensures ToLowerAscii(t) == w <==> SameIgnoringCase(t, w)
  {
    if SameIgnoringCase(t, w) {
      assert forall i :: 0 <= i < |w| ==> LowerAscii(w[i]) == w[i] by {
        forall i | 0 <= i < |w| ensures LowerAscii(w[i]) == w[i] {
          assert ToLowerAscii(w)[i] == LowerAscii(w[i]);
        }
      }
      assert ToLowerAscii(t) == w;
    }
  }

  predicate StartsWith(s: string, prefix: string) {
    |prefix| <= |s| && s[..|prefix|] == prefix
  }

  predicate EndsWith(s: string, suffix: string) {
    |suffix| <= |s| && s[|s| - |suffix|..] == suffix
  }

  /** `s.includes(part)`. */
  predicate Includes(s: string, part: string) {
    exists i :: 0 <= i <= |s| && StartsWith(s[i..], part)
  }

  /** `s.length`: characters outside the Basic Multilingual Plane count twice (a surrogate pair). */
  function Utf16Length(s: string): (n: nat)
    ensures |s| <= n <= 2 * |s|
  {
    if s == [] then 0 else (if s[0] as int > 0xFFFF then 2 else 1) + Utf16Length(s[1..])
  }

  /**
   * `s.replaceAll(pattern, replacement)` for a non-empty literal pattern:
   * scanning left to right, every non-overlapping occurrence is replaced.
   */
  function ReplaceAll(s: string, pattern: string, replacement: string): (r: string)
    requires pattern != []
    decreases |s|
  {
    if s == [] then []
    else if StartsWith(s, pattern) then
      assert s[0..] == s;
      replacement + ReplaceAll(s[|pattern|..], pattern, replacement)
    else [s[0]] + ReplaceAll(s[1..], pattern, replacement)
  }

  /** A replacement at the head of the string is emitted and scanning resumes after it. */
  lemma ReplaceAllAtHead(pattern: string, replacement: string, rest: string)
    requires pattern != []
    ensures ReplaceAll(pattern + rest, pattern, replacement) == replacement + ReplaceAll(rest, pattern, replacement)
  {
    assert StartsWith(pattern + rest, pattern);
    assert (pattern + rest)[|pattern|..] == rest;
  }

  /** Where no occurrence starts at the head, the first character is copied. */
  lemma ReplaceAllNoMatchAtHead(s: string, pattern: string, replacement: string)
    requires pattern != [] && s != [] && !StartsWith(s, pattern)
    ensures ReplaceAll(s, pattern, replacement) == [s[0]] + ReplaceAll(s[1..], pattern, replacement)
  {
  }

  /** No occurrence of `pattern` starts at any of the first `n` positions of `s`. */
  predicate NoMatchBefore(s: string, n: nat, pattern: string)
    requires n <= |s|
  {
    forall i :: 0 <= i < n ==> !StartsWith(s[i..], pattern)
  }

  /**
   * Text in which no occurrence of the pattern starts passes through unchanged,
   * and scanning then continues in what follows it.
   */
  lemma {:induction false} ReplaceAllSkips(p: string, rest: string, pattern: string, replacement: string)
    requires pattern != []
    requires NoMatchBefore(p + rest, |p|, pattern)
    ensures ReplaceAll(p + rest, pattern, replacement) == p + ReplaceAll(rest, pattern, replacement)
    decreases |p|
  {
    if p == [] {
      assert p + rest == rest;
    } else {
      var s := p + rest;
      var t := p[1..] + rest;
      assert NoMatchBefore(t, |p[1..]|, pattern) by {
        forall i | 0 <= i < |p[1..]|
          ensures !StartsWith(t[i..], pattern)
        {
          assert t[i..] == s[i + 1..];
        }
      }
      ReplaceAllSkips(p[1..], rest, pattern, replacement);
      assert s[0..] == s;
      ReplaceAllNoMatchAtHead(s, pattern, replacement);
      assert s[1..] == t;
      assert [s[0]] + p[1..] == p;
    }
  }

  /** A string in which the pattern never occurs is returned unchanged. */
  lemma ReplaceAllWithoutMatch(s: string, pattern: string, replacement: string)
    requires pattern != []
    requires NoMatchBefore(s, |s|, pattern)
    ensures ReplaceAll(s, pattern, replacement) == s
  {
    assert s + [] == s;
    ReplaceAllSkips(s, [], pattern, replacement);
  }
}
