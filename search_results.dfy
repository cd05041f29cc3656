/** The search page: the client-side filter over the fetched posts and the result label. */
module SearchResults {
  import opened Common
  import opened Strings
  import opened Lists
  import opened Views

  /** `post.title.toLowerCase().includes(query) || post.content.toLowerCase().includes(query)`
      for an already lower-cased query. */
  predicate Matches(post: PostView, query: string) {
    Contains(Lower(post.title), query) || Contains(Lower(post.content), query)
  }

  /** The filtered list for the query string `q` (`''` when the parameter is missing). */
  function Results(posts: seq<PostView>, q: string): (r: seq<PostView>)
    ensures q == "" || posts == [] ==> r == []
    ensures forall p :: p in r <==>
      q != "" && p in posts && (Contains(Lower(p.title), Lower(q)) || Contains(Lower(p.content), Lower(q)))
    ensures IsSubsequence(r, posts)
    ensures forall i | 0 <= i < |posts| ::
      q != "" && (Contains(Lower(posts[i].title), Lower(q)) || Contains(Lower(posts[i].content), Lower(q))) ==>
      multiset(r)[posts[i]] == multiset(posts)[posts[i]]
  {
    if q != "" && |posts| > 0 then
      var query := Lower(q);
      FilterIsSubsequence(posts, (p: PostView) => Matches(p, query));
      FilterCounts(posts, (p: PostView) => Matches(p, query));
      Filter(posts, (p: PostView) => Matches(p, query))
    else
      []
  }

  /** Queries that differ only in letter case give the same results. */
  lemma CaseDoesNotMatter(posts: seq<PostView>, q1: string, q2: string)
    requires Lower(q1) == Lower(q2)
    ensures Results(posts, q1) == Results(posts, q2)
  {
    assert |q1| == |Lower(q1)| == |q2|;
  }

  /** Lower-casing the query before searching changes nothing, since the page does it anyway. */
  lemma LowerCasedQuery(posts: seq<PostView>, q: string)
    ensures Results(posts, Lower(q)) == Results(posts, q)
  {
    LowerIdempotent(q);
    CaseDoesNotMatter(posts, Lower(q), q);
  }

  /** `result` with `s` added unless the count is exactly one. */
  function ResultLabel(n: nat): (text: string)
    ensures text == "result" <==> n == 1
    ensures n != 1 ==> text == "results"
  {
    "result" + (if n != 1 then "s" else "")
  }
}
