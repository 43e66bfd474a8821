/**
 * The blog's post list and its lookups: all posts, a post by slug, and all
 * slugs.
 */
module Blog {
  import opened Wrappers

  datatype BlogPost = BlogPost(
    slug: string,
    title: string,
    subtitle: Option<string>,
    author: Option<string>,
    date: string,
    tags: Option<seq<string>>,
    coverImageUrl: Option<string>,
    content: string)

  /** The published posts, newest first; the article bodies are not reproduced here. */
  const Posts: seq<BlogPost> := [
    BlogPost(
      "agentic-control-automation-architecture-layers",
      "Agentic Control Automation Architecture",
      Some("The 7 Layers of Financial Autonomy in BFSI"),
      Some("Embuscon Team"),
      "2025-11-11",
      Some(["BFSI", "Agentic AI", "RiskControls", "ResponsibleAI", "MachineAccountability"]),
      Some("/images/blog/agentic-control-automation.png"),
      ""),
    BlogPost(
      "agentic-control-automation-application",
      "From Control Automation to Control Autonomy - The Agentic AI Leap in BFSI",
      Some("How Agentic AI will reshape compliance and risk operations"),
      Some("Embuscon Team"),
      "2025-11-09",
      Some(["BFSI", "Agentic AI", "Controls"]),
      Some("/images/blog/control-autonomy-cover.png"),
      "")
  ]

  /** `posts.find(p => p.slug === slug)`: the first post with that slug. */
  function Find(posts: seq<BlogPost>, slug: string): (r: Option<BlogPost>)
    ensures r.Some? ==> r.value.slug == slug && r.value in posts
  {
    if posts == [] then None
    else if posts[0].slug == slug then Some(posts[0])
    else Find(posts[1..], slug)
  }

  /** `posts.map(p => p.slug)`. */
  function SlugsOf(posts: seq<BlogPost>): (r: seq<string>)
    ensures |r| == |posts|
    ensures forall i :: 0 <= i < |posts| ==> r[i] == posts[i].slug
  {
    if posts == [] then [] else [posts[0].slug] + SlugsOf(posts[1..])
  }

  /** `getAllPosts`: the list itself. */
  function GetAllPosts(): (r: seq<BlogPost>)
    ensures |r| == 2
  {
    Posts
  }

  /** `getPostBySlug`. */
  function GetPostBySlug(slug: string): (r: Option<BlogPost>)
    ensures r.Some? ==> r.value.slug == slug && r.value in GetAllPosts()
  {
    Find(Posts, slug)
  }

  /** `getAllSlugs`: the posts' slugs, in list order. */
  function GetAllSlugs(): (r: seq<string>)
    ensures |r| == |GetAllPosts()|
    ensures forall i :: 0 <= i < |r| ==> r[i] == GetAllPosts()[i].slug
  {
    SlugsOf(Posts)
  }

  /**
   * `find` answers with the post at the first index whose slug matches, and
   * with nothing exactly when no post has that slug.
   */
  lemma {:induction false} FindIsFirstMatch(posts: seq<BlogPost>, slug: string)
    ensures Find(posts, slug).None? <==> forall i :: 0 <= i < |posts| ==> posts[i].slug != slug
    ensures Find(posts, slug).Some? ==>
      exists i :: 0 <= i < |posts| && posts[i] == Find(posts, slug).value
        && forall j :: 0 <= j < i ==> posts[j].slug != slug
  {
    if posts != [] && posts[0].slug != slug {
      FindIsFirstMatch(posts[1..], slug);
      if Find(posts, slug).Some? {
        var i :| 0 <= i < |posts[1..]| && posts[1..][i] == Find(posts, slug).value
          && forall j :: 0 <= j < i ==> posts[1..][j].slug != slug;
        assert posts[i + 1] == Find(posts, slug).value;
        assert forall j :: 0 <= j < i + 1 ==> posts[j].slug != slug by {
          forall j | 0 <= j < i + 1 ensures posts[j].slug != slug {
            if j > 0 {
              assert posts[j] == posts[1..][j - 1];
            }
          }
        }
      } else {
        forall i | 0 <= i < |posts| ensures posts[i].slug != slug {
          if i > 0 {
            assert posts[i] == posts[1..][i - 1];
          }
        }
      }
    }
  }

  /** A slug is listed exactly when looking it up finds a post. */
  lemma SlugListedIffFound(slug: string)
    ensures slug in GetAllSlugs() <==> GetPostBySlug(slug).Some?
  {
    FindIsFirstMatch(Posts, slug);
    var slugs := GetAllSlugs();
    if slug in slugs {
      var i :| 0 <= i < |slugs| && slugs[i] == slug;
      assert Posts[i].slug == slug;
    }
    if GetPostBySlug(slug).Some? {
      var i :| 0 <= i < |Posts| && Posts[i] == GetPostBySlug(slug).value
        && forall j :: 0 <= j < i ==> Posts[j].slug != slug;
      assert slugs[i] == slug;
    }
  }

  /** The two published slugs lead to their own posts; any other slug to none. */
  lemma PublishedSlugs(other: string)
    requires other !in GetAllSlugs()
    ensures GetAllSlugs() == ["agentic-control-automation-architecture-layers", "agentic-control-automation-application"]
    ensures GetPostBySlug("agentic-control-automation-architecture-layers") == Some(Posts[0])
    ensures GetPostBySlug("agentic-control-automation-application") == Some(Posts[1])
    ensures GetPostBySlug(other).None?
  {
    SlugListedIffFound(other);
    assert Posts[1..][0] == Posts[1];
  }
}
