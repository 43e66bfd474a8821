/**
 * `escapeHtml` of the contact route: the five characters that are special in
 * HTML text and attribute values are replaced by character references
 * (WHATWG HTML Living Standard, section 13.1.4), `&` first.
 */
module HtmlEscape {
  import opened JsStrings

  /** The escaped characters, in the order the replacements run. */
  const Specials: seq<char> := ['&', '<', '>', '"', '\'']

  /** The character reference that replaces each of them, index for index. */
  const References: seq<string> := ["&amp;", "&lt;", "&gt;", "&quot;", "&#039;"]

  /** `escapeHtml(s)`: five chained `replaceAll` calls, `&` first. */
  function EscapeHtml(s: string): (r: string)
    ensures NoRawSpecials(r)
    ensures AmpersandsBeginReferences(r)
    ensures NoSpecials(s) ==> r == s
  {
    EscapeChainIsPerCharacter(s);
    EscapedPiecesClean(s);
    EscapeUpToIdentity(s, 5);
    ReplaceAll(ReplaceAll(ReplaceAll(ReplaceAll(ReplaceAll(
      s, "&", "&amp;"), "<", "&lt;"), ">", "&gt;"), "\"", "&quot;"), "'", "&#039;")
  }

  /** Decoding of the five references, `&amp;` last (the inverse chain). */
  function UnescapeHtml(t: string): string {
    ReplaceAll(ReplaceAll(ReplaceAll(ReplaceAll(ReplaceAll(
      t, "&#039;", "'"), "&quot;", "\""), "&gt;", ">"), "&lt;", "<"), "&amp;", "&")
  }

  /** Escaping is reversible: decoding the references, `&amp;` last, restores the input. */
  lemma UnescapeInvertsEscape(s: string)
    ensures UnescapeHtml(EscapeHtml(s)) == s
  {
    EscapeChainIsPerCharacter(s);
    UnstageStep(s, 5);
    UnstageStep(s, 4);
    UnstageStep(s, 3);
    UnstageStep(s, 2);
    UnstageStep(s, 1);
    EscapeUpToIdentity(s, 0);
  }

  predicate NoSpecials(s: string) {
    forall i :: 0 <= i < |s| ==> s[i] !in Specials
  }

  /** No `<`, `>`, `"` or `'` is left in the text. */
  predicate NoRawSpecials(r: string) {
    forall i :: 0 <= i < |r| ==> r[i] != '<' && r[i] != '>' && r[i] != '"' && r[i] != '\''
  }

  /** Every `&` starts one of the five character references. */
  predicate AmpersandsBeginReferences(r: string) {
    forall i :: 0 <= i < |r| && r[i] == '&' ==> BeginsReference(r[i..])
  }

  predicate BeginsReference(t: string) {
    exists j :: 0 <= j < 5 && StartsWith(t, References[j])
  }

  // ---------------------------------------------------------------------
  // The replacement chain, one character at a time

  /** Position of `c` in `Specials`, or 5 when it is not special. */
  function SpecialIndex(c: char): (k: nat)
    ensures k <= 5
    ensures k < 5 ==> Specials[k] == c
    ensures k == 5 <==> c !in Specials
  {
    if c == '&' then 0 else if c == '<' then 1 else if c == '>' then 2
    else if c == '"' then 3 else if c == '\'' then 4 else 5
  }

  /** What `c` has become once the first `k` replacements have run. */
  function Piece(c: char, k: nat): string
    requires k <= 5
  {
    var j := SpecialIndex(c);
    if j < k then References[j] else [c]
  }

  /** The input after the first `k` replacements, character by character. */
  function EscapeUpTo(s: string, k: nat): string
    requires k <= 5
  {
    if s == [] then [] else Piece(s[0], k) + EscapeUpTo(s[1..], k)
  }

  /** The `k`-th replacement of the chain (1-based). */
  function Stage(x: string, k: nat): string
    requires 1 <= k <= 5
  {
    ReplaceAll(x, [Specials[k - 1]], References[k - 1])
  }

  /** The `k`-th decoding step of `UnescapeHtml`, counted from the end of the chain. */
  function Unstage(x: string, k: nat): string
    requires 1 <= k <= 5
  {
    ReplaceAll(x, References[k - 1], [Specials[k - 1]])
  }

  lemma {:induction false} EscapeUpToIdentity(s: string, k: nat)
    requires k <= 5
    ensures k == 0 || NoSpecials(s) ==> EscapeUpTo(s, k) == s
  {
    if s != [] {
      EscapeUpToIdentity(s[1..], k);
    }
  }

  /** Replacing a single character distributes over concatenation. */
  lemma {:induction false} ReplaceCharAppend(a: string, b: string, c: char, rep: string)
    ensures ReplaceAll(a + b, [c], rep) == ReplaceAll(a, [c], rep) + ReplaceAll(b, [c], rep)
    decreases |a|
  {
    if a == [] {
      assert a + b == b;
    } else {
      assert (a + b)[1..] == a[1..] + b;
      assert StartsWith(a + b, [c]) <==> StartsWith(a, [c]);
      ReplaceCharAppend(a[1..], b, c, rep);
    }
  }

  /** A string without `c` is left alone by the replacement of `c`. */
  lemma ReplaceAbsentChar(x: string, c: char, rep: string)
    requires c !in x
    ensures ReplaceAll(x, [c], rep) == x
  {
    assert NoMatchBefore(x, |x|, [c]) by {
      forall i | 0 <= i < |x| ensures !StartsWith(x[i..], [c]) {
        assert x[i..][0] == x[i];
      }
    }
    ReplaceAllWithoutMatch(x, [c], rep);
  }

  /** The `k`-th replacement turns the text after `k - 1` replacements into the text after `k`. */
  lemma {:induction false} StageStep(s: string, k: nat)
    requires 1 <= k <= 5
    ensures Stage(EscapeUpTo(s, k - 1), k) == EscapeUpTo(s, k)
  {
    if s != [] {
      var c := Specials[k - 1];
      var p := Piece(s[0], k - 1);
      ReplaceCharAppend(p, EscapeUpTo(s[1..], k - 1), c, References[k - 1]);
      StageStep(s[1..], k);
      var j := SpecialIndex(s[0]);
      if j == k - 1 {
        assert p == [c];
        assert StartsWith(p, [c]);
        assert ReplaceAll(p, [c], References[k - 1]) == References[k - 1] + ReplaceAll([], [c], References[k - 1]);
      } else if j < k - 1 {
        assert c !in References[j];
        ReplaceAbsentChar(p, c, References[k - 1]);
      } else {
        ReplaceAbsentChar(p, c, References[k - 1]);
      }
    }
  }

  /** The literal chain of `EscapeHtml` equals the per-character escaping. */
  lemma EscapeChainIsPerCharacter(s: string)
    ensures ReplaceAll(ReplaceAll(ReplaceAll(ReplaceAll(ReplaceAll(
      s, "&", "&amp;"), "<", "&lt;"), ">", "&gt;"), "\"", "&quot;"), "'", "&#039;") == EscapeUpTo(s, 5)
  {
    EscapeUpToIdentity(s, 0);
    StageStep(s, 1);
    StageStep(s, 2);
    StageStep(s, 3);
    StageStep(s, 4);
    StageStep(s, 5);
  }

  /**
   * What a piece has become never lets the `k`-th reference start inside it,
   * unless the piece is that reference.
   */
  lemma PieceHidesReference(c: char, k: nat, rest: string)
    requires 1 <= k <= 5
    requires SpecialIndex(c) != k - 1
    ensures NoMatchBefore(Piece(c, k) + rest, |Piece(c, k)|, References[k - 1])
  {
    var p := Piece(c, k);
    var t := p + rest;
    var j := SpecialIndex(c);
    forall i | 0 <= i < |p| ensures !StartsWith(t[i..], References[k - 1]) {
      assert t[i..][0] == p[i];
      if j < k {
        if i == 0 {
          assert t[i..][1] == p[1];
          assert References[j][1] != References[k - 1][1];
        } else {
          assert p[i] != '&';
        }
      } else {
        assert p == [c] && c != '&';
      }
    }
  }

  /** Decoding the `k`-th reference undoes the `k`-th replacement. */
  lemma {:induction false} UnstageStep(s: string, k: nat)
    requires 1 <= k <= 5
    ensures Unstage(EscapeUpTo(s, k), k) == EscapeUpTo(s, k - 1)
  {
    if s != [] {
      var ref := References[k - 1];
      var rest := EscapeUpTo(s[1..], k);
      UnstageStep(s[1..], k);
      if SpecialIndex(s[0]) == k - 1 {
        ReplaceAllAtHead(ref, [Specials[k - 1]], rest);
      } else {
        PieceHidesReference(s[0], k, rest);
        ReplaceAllSkips(Piece(s[0], k), rest, ref, [Specials[k - 1]]);
      }
    }
  }

  /** Pieces after all five replacements hold no raw special and every `&` opens a reference. */
  lemma {:induction false} EscapedPiecesClean(s: string)
    ensures NoRawSpecials(EscapeUpTo(s, 5))
    ensures AmpersandsBeginReferences(EscapeUpTo(s, 5))
  {
    if s != [] {
      EscapedPiecesClean(s[1..]);
      var p := Piece(s[0], 5);
      var rest := EscapeUpTo(s[1..], 5);
      var r := p + rest;
      assert r == EscapeUpTo(s, 5);
      forall i | 0 <= i < |r| && r[i] == '&' ensures BeginsReference(r[i..]) {
        if i < |p| {
          var j := SpecialIndex(s[0]);
          assert j < 5 && i == 0;
          assert r[0..] == r;
          assert StartsWith(r, References[j]);
        } else {
          assert r[i..] == rest[i - |p|..];
        }
      }
    }
  }
}
