/**
 * The navigation link component: when a link counts as the current page,
 * and the class string it renders with.
 */
module NavLink {
  import opened JsStrings

  const BaseClasses := "text-sm transition-colors"
  const ActiveClasses := "text-emerald-400 font-medium"
  const InactiveClasses := "opacity-80 hover:opacity-100"

  /**
   * `isActive`: the home link is active on `/` only; any other link is
   * active on its own path and on every path below it.
   */
  function IsActive(href: string, pathname: string): (b: bool)
    ensures pathname == href ==> b
    ensures href == "/" ==> (b <==> pathname == "/")
    ensures b && href != "/" ==> |pathname| >= |href| && pathname[..|href|] == href
  {
    if href == "/" then pathname == "/"
    else pathname == href || StartsWith(pathname, href + "/")
  }

  /**
   * Below a link means: the link's path, then a `/` separator. A path that
   * merely shares a prefix with the link is not below it.
   */
  lemma IsActiveMeansSegmentPrefix(href: string, pathname: string)
    requires href != "/"
    ensures IsActive(href, pathname) <==>
      pathname == href
      || (|pathname| > |href| && pathname[..|href|] == href && pathname[|href|] == '/')
  {
    if |pathname| > |href| && pathname[..|href|] == href && pathname[|href|] == '/' {
      assert pathname[..|href| + 1] == pathname[..|href|] + [pathname[|href|]];
    }
    if StartsWith(pathname, href + "/") {
      assert pathname[..|href|] == pathname[..|href| + 1][..|href|];
      assert pathname[|href|] == pathname[..|href| + 1][|href|];
    }
  }

  /** The home link is active on the home page and nowhere else. */
  lemma HomeIsExact(pathname: string)
    ensures IsActive("/", pathname) <==> pathname == "/"
  {
  }

  /** A blog link stays active on a post page, but not on a look-alike path. */
  lemma BlogExamples()
    ensures IsActive("/blog", "/blog")
    ensures IsActive("/blog", "/blog/some-post")
    ensures !IsActive("/blog", "/blogger")
    ensures !IsActive("/blog", "/")
  {
    IsActiveMeansSegmentPrefix("/blog", "/blog/some-post");
    IsActiveMeansSegmentPrefix("/blog", "/blogger");
  }

  /**
   * The rendered class string: base classes, then the active or inactive
   * classes, then the caller's extra classes, with the outer white space
   * trimmed.
   */
  function Combined(active: bool, className: string): (r: string)
    ensures StartsWith(r, BaseClasses + " " + (if active then ActiveClasses else InactiveClasses))
    ensures EndsWith(r, TrimEnd(className))
  {
    CombinedShape(active, className);
    Trim(BaseClasses + " " + (if active then ActiveClasses else InactiveClasses) + " " + className)
  }

  /**
   * Trimming only removes the caller's trailing white space and, when the
   * extra classes are blank, the separator before them.
   */
  lemma CombinedShape(active: bool, className: string)
    ensures var head := BaseClasses + " " + (if active then ActiveClasses else InactiveClasses);
      Trim(head + " " + className)
        == head + (if TrimEnd(className) == [] then "" else " " + TrimEnd(className))
  {
    var head := BaseClasses + " " + (if active then ActiveClasses else InactiveClasses);
    assert head[0] == 't';
    assert head[|head| - 1] == (if active then 'm' else '0');
    TrimJoined(head, className);
  }

  /** Joining a head without outer white space to extra classes, then trimming. */
  lemma TrimJoined(head: string, extra: string)
    requires head != [] && !IsWhitespace(head[0]) && !IsWhitespace(head[|head| - 1])
    ensures Trim(head + " " + extra) == head + (if TrimEnd(extra) == [] then "" else " " + TrimEnd(extra))
  {
    var s := head + " " + extra;
    assert s[0] == head[0];
    assert TrimStart(s) == s;
    assert s == head + (" " + extra);
    TrimEndAppend(head, " " + extra);
    TrimEndAppend(" ", extra);
    assert TrimEnd(" ") == TrimEnd([]) == [];
    assert TrimEnd(head) == head;
  }

  /** With no extra classes the link renders the base and state classes only. */
  lemma CombinedWithoutExtras(active: bool)
    ensures Combined(active, "") == BaseClasses + " " + (if active then ActiveClasses else InactiveClasses)
  {
    CombinedShape(active, "");
    assert TrimEnd("") == [];
  }
}
