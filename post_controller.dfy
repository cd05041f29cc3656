/** The post controller of the backend: the reaction handlers, update and delete with their
    authorisation check and comment cascade, and the paging arithmetic of the post listing. */
module PostController {
  import opened Common
  import opened Lists
  import opened Ledger

  /** A stored post document with the fields the controller reads or writes. */
  class Post {
    const id: PostId
    const author: UserId
    var title: string
    var content: string
    var imageUrl: Option<string>
    var likes: int
    var dislikes: int
    var likedBy: seq<UserId>
    var dislikedBy: seq<UserId>

    function Reactions(): (r: Ledger)
      reads this
    {
      Ledger(likes, dislikes, likedBy, dislikedBy)
    }

    ghost predicate Valid()
      reads this
    {
      Consistent(Reactions())
    }

    /** A new document, as `Post.create` stores it: no reactions yet. */
    constructor (id: PostId, author: UserId, title: string, content: string, imageUrl: Option<string>)
      ensures this.id == id && this.author == author
      ensures this.title == title && this.content == content && this.imageUrl == imageUrl
      ensures Reactions() == Ledger(0, 0, [], [])
      ensures Valid()
    {
      this.id := id;
      this.author := author;
      this.title := title;
      this.content := content;
      this.imageUrl := imageUrl;
      likes, dislikes := 0, 0;
      likedBy, dislikedBy := [], [];
    }

    /** The body of `likePost` once the document is found; the reply carries the new counters. */
    method Like(actor: UserId) returns (reply: ReactionCounts)
      modifies this`likes, this`dislikes, this`likedBy, this`dislikedBy
      ensures Reactions() == LikeStep(old(Reactions()), actor)
      ensures actor !in dislikedBy
      ensures actor in likedBy <==> actor !in old(likedBy)
      ensures old(Valid()) ==> Valid()
      ensures reply == ReactionCounts(id, likes, dislikes)
    {
      var alreadyLiked := actor in likedBy;
      var alreadyDisliked := actor in dislikedBy;
      if alreadyDisliked {
        dislikes := dislikes - 1;
        dislikedBy := Without(dislikedBy, actor);
      }
      if alreadyLiked {
        likes := likes - 1;
        likedBy := Without(likedBy, actor);
      } else {
        likes := likes + 1;
        likedBy := likedBy + [actor];
      }
      LikeToggles(old(Reactions()), actor);
      if old(Valid()) {
        LikePreservesConsistency(old(Reactions()), actor);
      }
      reply := ReactionCounts(id, likes, dislikes);
    }

    /** The body of `dislikePost` once the document is found. */
    method Dislike(actor: UserId) returns (reply: ReactionCounts)
      modifies this`likes, this`dislikes, this`likedBy, this`dislikedBy
      ensures Reactions() == DislikeStep(old(Reactions()), actor)
      ensures actor !in likedBy
      ensures actor in dislikedBy <==> actor !in old(dislikedBy)
      ensures old(Valid()) ==> Valid()
      ensures reply == ReactionCounts(id, likes, dislikes)
    {
      var alreadyDisliked := actor in dislikedBy;
      var alreadyLiked := actor in likedBy;
      if alreadyLiked {
        likes := likes - 1;
        likedBy := Without(likedBy, actor);
      }
      if alreadyDisliked {
        dislikes := dislikes - 1;
        dislikedBy := Without(dislikedBy, actor);
      } else {
        dislikes := dislikes + 1;
        dislikedBy := dislikedBy + [actor];
      }
      DislikeToggles(old(Reactions()), actor);
      if old(Valid()) {
        DislikePreservesConsistency(old(Reactions()), actor);
      }
      reply := ReactionCounts(id, likes, dislikes);
    }

    /** The field updates of `updatePost`: title and content keep their old value unless the new
        one is truthy, and the image is replaced only by a truthy URL. */
    method ApplyUpdate(body: UpdateBody)
      modifies this`title, this`content, this`imageUrl
      ensures title == KeepUnlessTruthy(body.title, old(title))
      ensures content == KeepUnlessTruthy(body.content, old(content))
      ensures imageUrl == if Truthy(body.imageUrl) then body.imageUrl else old(imageUrl)
    {
      title := KeepUnlessTruthy(body.title, title);
      content := KeepUnlessTruthy(body.content, content);
      if Truthy(body.imageUrl) {
        imageUrl := body.imageUrl;
      }
    }
  }

  /** The request body of `updatePost`; each field may be missing. */
  datatype UpdateBody = UpdateBody(title: Option<string>, content: Option<string>, imageUrl: Option<string>)

  /** `incoming || current` for a string field. */
  function KeepUnlessTruthy(incoming: Option<string>, current: string): (r: string)
    ensures Truthy(incoming) ==> r == incoming.value
    ensures !Truthy(incoming) ==> r == current
  {
    if Truthy(incoming) then incoming.value else current
  }

  /** The check in `updatePost` and `deletePost`: the author or an admin may proceed. */
  predicate MayModify(author: UserId, actor: User) {
    author == actor.id || actor.isAdmin
  }

  /** A comment document, as far as the delete cascade sees it. */
  datatype CommentRecord = CommentRecord(id: CommentId, post: PostId, author: UserId, content: string)

  /** `Comment.deleteMany({ post: id })`: every comment of another post remains. */
  function DeleteCommentsOf(comments: seq<CommentRecord>, postId: PostId): (r: seq<CommentRecord>)
    ensures forall c :: c in r <==> c in comments && c.post != postId
    ensures IsSubsequence(r, comments)
    ensures forall i | 0 <= i < |comments| :: comments[i].post != postId ==>
      multiset(r)[comments[i]] == multiset(comments)[comments[i]]
  {
    FilterIsSubsequence(comments, (c: CommentRecord) => c.post != postId);
    FilterCounts(comments, (c: CommentRecord) => c.post != postId);
    Filter(comments, (c: CommentRecord) => c.post != postId)
  }

  /** A handler's reply: 200 with a body, 404 or 401. */
  datatype Reply<T> = Ok(body: T) | NotFound | NotAuthorized

  /** The post and comment collections, with the handlers that look a post up by id. */
  class PostStore {
    var posts: map<PostId, Post>
    var comments: seq<CommentRecord>

    /** Each document is stored under its own id (so no document is stored twice). */
    ghost predicate Wellformed()
      reads this
    {
      forall id | id in posts :: posts[id].id == id
    }

    /** Every stored post keeps the reaction invariant. */
    ghost predicate Consistent()
      reads this, posts.Values
    {
      forall id | id in posts :: posts[id].Valid()
    }

    constructor ()
      ensures posts == map[] && comments == []
      ensures Wellformed() && Consistent()
    {
      posts := map[];
      comments := [];
    }

    /** `likePost`: 404 for an unknown id, otherwise the like transition on that post alone. */
    method LikePost(postId: PostId, actor: UserId) returns (r: Reply<ReactionCounts>)
      requires Wellformed()
      modifies posts.Values
      ensures posts == old(posts) && comments == old(comments) && Wellformed()
      ensures postId !in posts ==> r == NotFound
      ensures postId in posts ==>
        && posts[postId].Reactions() == LikeStep(old(posts[postId].Reactions()), actor)
        && r == Ok(ReactionCounts(postId, posts[postId].likes, posts[postId].dislikes))
      ensures forall id | id in posts && id != postId :: unchanged(posts[id])
      ensures forall id | id in posts ::
        && posts[id].title == old(posts[id].title)
        && posts[id].content == old(posts[id].content)
        && posts[id].imageUrl == old(posts[id].imageUrl)
      ensures old(Consistent()) ==> Consistent()
    {
      if postId !in posts {
        return NotFound;
      }
      var post := posts[postId];
      var counts := post.Like(actor);
      r := Ok(counts);
    }

    /** `dislikePost`: 404 for an unknown id, otherwise the dislike transition on that post alone. */
    method DislikePost(postId: PostId, actor: UserId) returns (r: Reply<ReactionCounts>)
      requires Wellformed()
      modifies posts.Values
      ensures posts == old(posts) && comments == old(comments) && Wellformed()
      ensures postId !in posts ==> r == NotFound
      ensures postId in posts ==>
        && posts[postId].Reactions() == DislikeStep(old(posts[postId].Reactions()), actor)
        && r == Ok(ReactionCounts(postId, posts[postId].likes, posts[postId].dislikes))
      ensures forall id | id in posts && id != postId :: unchanged(posts[id])
      ensures forall id | id in posts ::
        && posts[id].title == old(posts[id].title)
        && posts[id].content == old(posts[id].content)
        && posts[id].imageUrl == old(posts[id].imageUrl)
      ensures old(Consistent()) ==> Consistent()
    {
      if postId !in posts {
        return NotFound;
      }
      var post := posts[postId];
      var counts := post.Dislike(actor);
      r := Ok(counts);
    }

    /** `updatePost`: 404 for an unknown id, 401 unless the actor is the author or an admin,
        otherwise the field merge on that post alone. */
    method UpdatePost(postId: PostId, actor: User, body: UpdateBody) returns (r: Reply<()>)
      requires Wellformed()
      modifies posts.Values
      ensures posts == old(posts) && comments == old(comments) && Wellformed()
      ensures postId !in posts ==> r == NotFound
      ensures postId in posts && !MayModify(posts[postId].author, actor) ==> r == NotAuthorized
      ensures postId in posts && MayModify(posts[postId].author, actor) ==> r == Ok(())
      ensures r != Ok(()) ==> forall id | id in posts :: unchanged(posts[id])
      ensures r == Ok(()) ==>
        && posts[postId].title == KeepUnlessTruthy(body.title, old(posts[postId].title))
        && posts[postId].content == KeepUnlessTruthy(body.content, old(posts[postId].content))
        && posts[postId].imageUrl == if Truthy(body.imageUrl) then body.imageUrl else old(posts[postId].imageUrl)
      ensures forall id | id in posts && id != postId :: unchanged(posts[id])
      ensures forall id | id in posts :: posts[id].Reactions() == old(posts[id].Reactions())
      ensures old(Consistent()) ==> Consistent()
    {
      if postId !in posts {
        return NotFound;
      }
      var post := posts[postId];
      if !MayModify(post.author, actor) {
        return NotAuthorized;
      }
      post.ApplyUpdate(body);
      r := Ok(());
    }

    /** `deletePost`: 404 for an unknown id, 401 unless the actor is the author or an admin,
        otherwise the post and exactly its comments are removed. */
    method DeletePost(postId: PostId, actor: User) returns (r: Reply<()>)
      requires Wellformed()
      modifies this
      ensures Wellformed()
      ensures postId !in old(posts) ==> r == NotFound
      ensures postId in old(posts) && !MayModify(old(posts)[postId].author, actor) ==> r == NotAuthorized
      ensures postId in old(posts) && MayModify(old(posts)[postId].author, actor) ==> r == Ok(())
      ensures r != Ok(()) ==> posts == old(posts) && comments == old(comments)
      ensures r == Ok(()) ==>
        && posts == old(posts) - {postId}
        && comments == DeleteCommentsOf(old(comments), postId)
      ensures old(Consistent()) ==> Consistent()
    {
      if postId !in posts {
        return NotFound;
      }
      var post := posts[postId];
      if !MayModify(post.author, actor) {
        return NotAuthorized;
      }
      comments := DeleteCommentsOf(comments, postId);
      posts := posts - {postId};
      r := Ok(());
    }
  }

  // ---- the paging arithmetic of getPosts ----

  const PageSize: nat := 10

  /** `Number(req.query.page)`, as far as the model tells numbers apart: not a number, or an integer. */
  datatype PageParam = NaN | Int(n: int)

  /** `Number(req.query.page) || 1`: zero and NaN are falsy. */
  function RequestedPage(p: PageParam): (page: int)
    ensures page != 0
    ensures p.Int? && p.n != 0 ==> page == p.n
    ensures p == NaN || p == Int(0) ==> page == 1
  {
    match p
    case NaN => 1
    case Int(n) => if n == 0 then 1 else n
  }

  /** `Math.ceil(count / pageSize)`. */
  function PageCount(count: nat): (pages: nat)
    ensures pages * PageSize >= count
    ensures pages > 0 ==> (pages - 1) * PageSize < count
  {
    (count + PageSize - 1) / PageSize
  }

  /** `.limit(pageSize).skip(pageSize * (page - 1))` over the newest-first list. */
  function PageOf<T>(newestFirst: seq<T>, page: int): (r: seq<T>)
    requires page >= 1
    ensures |r| <= PageSize
    ensures r == [] || PageSize * (page - 1) + |r| <= |newestFirst|
    ensures |r| == PageSize || PageSize * (page - 1) + |r| >= |newestFirst|
    ensures forall i | 0 <= i < |r| :: r[i] == newestFirst[PageSize * (page - 1) + i]
  {
    var skip := PageSize * (page - 1);
    if skip >= |newestFirst| then []
    else if skip + PageSize >= |newestFirst| then newestFirst[skip..]
    else newestFirst[skip..skip + PageSize]
  }

  /** The reply of `getPosts`: the page, its number and the number of pages; a negative skip is
      rejected by the database and ends in the generic server error. */
  datatype Listing<T> = Listing(posts: seq<T>, page: int, pages: nat) | ServerError

  function GetPosts<T>(newestFirst: seq<T>, p: PageParam): (r: Listing<T>)
    ensures RequestedPage(p) < 1 <==> r == ServerError
    ensures r.Listing? ==> r.page == RequestedPage(p) && r.pages == PageCount(|newestFirst|)
    ensures r.Listing? ==> r.posts == PageOf(newestFirst, r.page)
  {
    var page := RequestedPage(p);
    if page < 1 then ServerError
    else Listing(PageOf(newestFirst, page), page, PageCount(|newestFirst|))
  }

  /** A page has posts exactly when its number is at most the page count. */
  lemma PageNonEmptyIff<T>(newestFirst: seq<T>, page: int)
    requires page >= 1
    ensures PageOf(newestFirst, page) != [] <==> page <= PageCount(|newestFirst|)
  {
  }

  /** The concatenation of pages 1 to n. */
  function FirstPages<T>(newestFirst: seq<T>, n: nat): (r: seq<T>) {
    if n == 0 then [] else FirstPages(newestFirst, n - 1) + PageOf(newestFirst, n)
  }

  lemma {:induction false} FirstPagesArePrefix<T>(newestFirst: seq<T>, n: nat)
    ensures FirstPages(newestFirst, n) == newestFirst[..if PageSize * n < |newestFirst| then PageSize * n else |newestFirst|]
  {
    if n > 0 {
      FirstPagesArePrefix(newestFirst, n - 1);
    }
  }

  /** Walking pages 1 to `pages` lists every post once, in newest-first order. */
  lemma PagesCoverAllPosts<T>(newestFirst: seq<T>)
    ensures FirstPages(newestFirst, PageCount(|newestFirst|)) == newestFirst
  {
    FirstPagesArePrefix(newestFirst, PageCount(|newestFirst|));
  }
}
