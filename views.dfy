/** The records the pages hold in their state, as the API returns them. */
module Views {
  import opened Common
  import opened Lists

  /** A post as the pages see it; `authorId` is missing when the author was not populated. */
  datatype PostView = PostView(
    id: PostId,
    title: string,
    content: string,
    authorId: Option<UserId>,
    likes: int,
    dislikes: int,
    imageUrl: Option<string>)

  /** A comment as the comment section sees it. */
  datatype CommentView = CommentView(id: CommentId, authorId: UserId, content: string)

  /** `posts.filter(post => post._id !== id)`, used by both dashboards after a delete. */
  function RemovePost(posts: seq<PostView>, id: PostId): (r: seq<PostView>)
    ensures forall p :: p in r <==> p in posts && p.id != id
    ensures IsSubsequence(r, posts)
    ensures forall i | 0 <= i < |posts| :: posts[i].id != id ==>
      multiset(r)[posts[i]] == multiset(posts)[posts[i]]
    ensures (forall i | 0 <= i < |posts| :: posts[i].id != id) ==> r == posts
  {
    var keep := (p: PostView) => p.id != id;
    FilterIsSubsequence(posts, keep);
    FilterAll(posts, keep);
    FilterCounts(posts, keep);
    Filter(posts, keep)
  }
}
