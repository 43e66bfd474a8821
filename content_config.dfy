/**
 * The computed fields of a blog post document: `slug` and `url` from the
 * source file name, and `isDraft` from the optional `draft` front-matter
 * field.
 */
module ContentConfig {
  import opened Wrappers
  import opened JsStrings

  const BlogPrefix := "/blog/"

  // ---------------------------------------------------------------------
  // `replace(/\.mdx?$/, "")`

  /** The pattern `\.mdx?$` matches at index `i`: the rest of `s` is `.md` or `.mdx`. */
  predicate MdSuffixAt(s: string, i: nat)
    requires i <= |s|
  {
    s[i..] == ".mdx" || s[i..] == ".md"
  }

  /** The regular-expression search: the leftmost index, from `from` on, where the pattern matches. */
  function FirstMdMatch(s: string, from: nat): (r: Option<nat>)
    requires from <= |s|
    ensures r.Some? ==> from <= r.value <= |s| && MdSuffixAt(s, r.value)
    ensures r.Some? ==> forall i :: from <= i < r.value ==> !MdSuffixAt(s, i)
    ensures r.None? ==> forall i :: from <= i <= |s| ==> !MdSuffixAt(s, i)
    decreases |s| - from
  {
    if MdSuffixAt(s, from) then Some(from)
    else if from == |s| then None
    else FirstMdMatch(s, from + 1)
  }

  /**
   * Replacing the first match, if any, with nothing: what is left is a
   * prefix of the name, shorter by nothing, `.md` or `.mdx`.
   */
  function StripMdExtension(fileName: string): (r: string)
    ensures |r| <= |fileName| && r == fileName[..|r|]
    ensures |fileName| - |r| in {0, 3, 4}
  {
    match FirstMdMatch(fileName, 0)
    case Some(i) => fileName[..i]
    case None => fileName
  }

  /**
   * The search can only match at the very end, so the replacement removes a
   * trailing `.mdx`, else a trailing `.md`, and leaves any other name alone.
   */
  lemma StripMdExtensionRule(fileName: string)
    ensures StripMdExtension(fileName) ==
      if EndsWith(fileName, ".mdx") then fileName[..|fileName| - 4]
      else if EndsWith(fileName, ".md") then fileName[..|fileName| - 3]
      else fileName
  {
    var n := |fileName|;
    match FirstMdMatch(fileName, 0)
    case Some(i) =>
      if fileName[i..] == ".mdx" {
        assert i == n - 4;
      } else {
        assert i == n - 3 && fileName[n - 1] == 'd';
        assert !EndsWith(fileName, ".mdx");
      }
    case None =>
      if EndsWith(fileName, ".mdx") {
        assert MdSuffixAt(fileName, n - 4);
      } else if EndsWith(fileName, ".md") {
        assert MdSuffixAt(fileName, n - 3);
      }
  }

  /** Exactly one extension comes off: `name.md` and `name.mdx` both give back `name`. */
  lemma StripMdExtensionRoundTrip(name: string)
    ensures StripMdExtension(name + ".md") == name
    ensures StripMdExtension(name + ".mdx") == name
  {
    StripMdExtensionRule(name + ".md");
    StripMdExtensionRule(name + ".mdx");
    assert (name + ".md")[|name| + 2] == 'd';
    assert !EndsWith(name + ".md", ".mdx");
    assert (name + ".md")[|name + ".md"| - 3..] == ".md";
    assert (name + ".mdx")[|name + ".mdx"| - 4..] == ".mdx";
  }

  /** A name without either extension keeps every character. */
  lemma StripMdExtensionExamples()
    ensures StripMdExtension("welcome.txt") == "welcome.txt"
    ensures StripMdExtension("readme") == "readme"
  {
    StripMdExtensionRule("welcome.txt");
    StripMdExtensionRule("readme");
  }

  /** A doubled extension loses only the last one. */
  lemma StripMdExtensionDoubled()
    ensures StripMdExtension("notes.md.mdx") == "notes.md"
  {
    StripMdExtensionRoundTrip("notes.md");
    assert "notes.md" + ".mdx" == "notes.md.mdx";
  }

  // ---------------------------------------------------------------------
  // Computed fields

  /** `slug`: the source file name without its `.md`/`.mdx` extension. */
  function Slug(sourceFileName: string): (slug: string)
    ensures |slug| <= |sourceFileName|
    ensures slug == sourceFileName[..|slug|]
  {
    StripMdExtensionRule(sourceFileName);
    StripMdExtension(sourceFileName)
  }

  /** `url`: the blog path of the post, `/blog/` then the extension-less file name. */
  function Url(sourceFileName: string): (url: string)
    ensures StartsWith(url, BlogPrefix)
  {
    BlogPrefix + StripMdExtension(sourceFileName)
  }

  /** A post's url is the blog path of its slug. */
  lemma UrlIsBlogPathOfSlug(sourceFileName: string)
    ensures Url(sourceFileName) == BlogPrefix + Slug(sourceFileName)
    ensures Url(Slug(sourceFileName) + ".mdx") == Url(sourceFileName)
  {
    StripMdExtensionRoundTrip(Slug(sourceFileName));
  }

  /**
   * `isDraft`: the `draft` field (empty when absent), trimmed, is `true` in
   * any letter case or `1`. The regular expression's case-insensitive mode
   * folds ASCII letters only for these characters.
   */
  function IsDraft(draft: Option<string>): (b: bool)
    ensures draft.None? ==> !b
    ensures b ==> |Trim(draft.value)| in {1, 4}
  {
    var t := Trim(draft.GetOr(""));
    ToLowerAscii(t) == "true" || t == "1"
  }

  /** Drafts are exactly the posts whose trimmed flag reads `true` (any case) or `1`. */
  lemma IsDraftMeaning(draft: Option<string>)
    ensures IsDraft(draft) <==>
      draft.Some? && (SameIgnoringCase(Trim(draft.value), "true") || Trim(draft.value) == "1")
  {
    LowerIsWord(Trim(draft.GetOr("")), "true");
    if draft.None? {
      assert Trim("") == "";
    }
  }

  /** Blanks around the flag are ignored. */
  lemma IsDraftIgnoresBlanks(d: string)
    ensures IsDraft(Some(d)) == IsDraft(Some(Trim(d)))
  {
    TrimIdempotent(d);
  }

  /** No flag, `false` and `yes` all leave a post published. */
  lemma IsDraftOffExamples()
    ensures !IsDraft(None)
    ensures !IsDraft(Some("false"))
    ensures !IsDraft(Some("yes"))
  {
    assert Trim("") == "";
    TrimOfTrimmed("false");
    TrimOfTrimmed("yes");
    assert ToLowerAscii("false")[0] == 'f';
    assert |ToLowerAscii("yes")| == 3;
  }

  /** ` TRUE ` and `1` mark a draft. */
  lemma IsDraftOnExamples()
    ensures IsDraft(Some(" TRUE "))
    ensures IsDraft(Some("1"))
  {
    TrimOfTrimmed("1");
    assert TrimStart(" TRUE ") == TrimStart("TRUE ") == "TRUE ";
    assert TrimEnd("TRUE ") == TrimEnd("TRUE") == "TRUE";
    LowerIsWord("TRUE", "true");
    assert SameIgnoringCase("TRUE", "true") by {
      assert LowerAscii("TRUE"[0]) == 't';
      assert LowerAscii("TRUE"[1]) == 'r';
      assert LowerAscii("TRUE"[2]) == 'u';
      assert LowerAscii("TRUE"[3]) == 'e';
    }
  }
}
