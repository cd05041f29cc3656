/** The home page: the first post is featured, the rest are listed as cards. */
module IndexPage {
  import opened Common
  import opened Strings
  import opened Views

  /** `posts[0]`, missing for an empty list. */
  function Featured(posts: seq<PostView>): (f: Option<PostView>)
    ensures f.None? <==> posts == []
    ensures f.Some? ==> f.value == posts[0]
  {
    if posts == [] then None else Some(posts[0])
  }

  /** `posts.slice(1)`. */
  function Regular(posts: seq<PostView>): (r: seq<PostView>)
    ensures |r| == if |posts| == 0 then 0 else |posts| - 1
    ensures forall i | 0 <= i < |r| :: r[i] == posts[i + 1]
  {
    if posts == [] then [] else posts[1..]
  }

  /** The featured post followed by the regular ones is the whole list. */
  lemma SplitIsWhole(posts: seq<PostView>)
    ensures Featured(posts).None? ==> Regular(posts) == [] && posts == []
    ensures Featured(posts).Some? ==> [Featured(posts).value] + Regular(posts) == posts
  {
    if posts != [] {
      assert [posts[0]] + posts[1..] == posts;
    }
  }

  /** The "No posts found" message is shown when the regular list is empty, so also when there
      is exactly one post, which is then featured above it. */
  predicate ShowsNoPostsMessage(posts: seq<PostView>) {
    |Regular(posts)| == 0
  }

  lemma NoPostsMessageIff(posts: seq<PostView>)
    ensures ShowsNoPostsMessage(posts) <==> |posts| <= 1
    ensures posts == [] ==> ShowsNoPostsMessage(posts) && Featured(posts).None?
    ensures |posts| == 1 ==> ShowsNoPostsMessage(posts) && Featured(posts).Some?
  {
  }

  const FeaturedLength: nat := 300

  /** `content.substring(0, 300) + '...'`: the dots are added even to short content. */
  function FeaturedExcerpt(content: string): (r: string)
    ensures |r| == (if |content| < FeaturedLength then |content| else FeaturedLength) + 3
    ensures r[|r| - 3..] == "..."
    ensures r[..|r| - 3] == content[..|r| - 3]
  {
    Prefix(content, FeaturedLength) + "..."
  }

  /** Short content is shown whole, followed by the dots. */
  lemma ShortFeaturedExcerpt(content: string)
    requires |content| <= FeaturedLength
    ensures FeaturedExcerpt(content) == content + "..."
  {
  }
}
