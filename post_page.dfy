/** The single-post page: who sees the Edit and Delete controls, and the like, dislike and
    delete handlers. */
module PostPage {
  import opened Common
  import opened Views
  import PostController

  /** `user && post.author?._id === user?._id`. */
  predicate IsAuthor(user: Option<User>, post: PostView) {
    user.Some? && post.authorId == Some(user.value.id)
  }

  /** `isAuthor || (user && user.isAdmin)`. */
  predicate CanEditDelete(user: Option<User>, post: PostView) {
    IsAuthor(user, post) || (user.Some? && user.value.isAdmin)
  }

  /** The header renders the Edit link only inside the `canEditDelete` block and only for the author. */
  predicate ShowsEdit(user: Option<User>, post: PostView) {
    CanEditDelete(user, post) && IsAuthor(user, post)
  }

  /** `canEditDelete` holds exactly for a signed-in author or admin. */
  lemma CanEditDeleteIff(user: Option<User>, post: PostView)
    ensures CanEditDelete(user, post) <==>
            user.Some? && (post.authorId == Some(user.value.id) || user.value.isAdmin)
  {
  }

  /** Edit is shown exactly to the author; the Delete button, rendered for everyone who passes
      `canEditDelete`, is all an admin who is not the author gets. */
  lemma ControlsShown(user: Option<User>, post: PostView)
    ensures ShowsEdit(user, post) <==> IsAuthor(user, post)
    ensures ShowsEdit(user, post) ==> CanEditDelete(user, post)
    ensures user.Some? && user.value.isAdmin && !IsAuthor(user, post) ==>
            CanEditDelete(user, post) && !ShowsEdit(user, post)
    ensures user.None? ==> !CanEditDelete(user, post) && !ShowsEdit(user, post)
  {
  }

  /** For a post whose author is known, the page offers the controls exactly to the users the
      server lets update or delete it. */
  lemma AgreesWithServer(user: User, post: PostView)
    requires post.authorId.Some?
    ensures CanEditDelete(Some(user), post) <==> PostController.MayModify(post.authorId.value, user)
  {
  }

  /** `{ ...prevPost, likes: updated.likes, dislikes: updated.dislikes }`. */
  function WithCounts(p: PostView, c: ReactionCounts): (r: PostView)
    ensures r.likes == c.likes && r.dislikes == c.dislikes
    ensures r.(likes := p.likes, dislikes := p.dislikes) == p
  {
    p.(likes := c.likes, dislikes := c.dislikes)
  }

  class PostPageState {
    var post: Option<PostView>

    constructor (loaded: Option<PostView>)
      ensures post == loaded
    {
      post := loaded;
    }

    /** `handleLike`. `response` is the reply of `likePost`, `None` when the request threw.
        Returns the id sent to the server, `None` when no request is made. */
    method HandleLike(isAuthenticated: bool, response: Option<ReactionCounts>) returns (sent: Option<PostId>)
      modifies this
      ensures sent.Some? <==> isAuthenticated && old(post).Some?
      ensures sent.Some? ==> sent.value == old(post).value.id
      ensures sent.Some? && response.Some? ==> post == Some(WithCounts(old(post).value, response.value))
      ensures sent.None? || response.None? ==> post == old(post)
    {
      if !isAuthenticated || post.None? {
        return None;
      }
      sent := Some(post.value.id);
      if response.Some? {
        post := Some(WithCounts(post.value, response.value));
      }
    }

    /** `handleDislike`: the same guard and the same merge of the server's counters. */
    method HandleDislike(isAuthenticated: bool, response: Option<ReactionCounts>) returns (sent: Option<PostId>)
      modifies this
      ensures sent.Some? <==> isAuthenticated && old(post).Some?
      ensures sent.Some? ==> sent.value == old(post).value.id
      ensures sent.Some? && response.Some? ==> post == Some(WithCounts(old(post).value, response.value))
      ensures sent.None? || response.None? ==> post == old(post)
    {
      if !isAuthenticated || post.None? {
        return None;
      }
      sent := Some(post.value.id);
      if response.Some? {
        post := Some(WithCounts(post.value, response.value));
      }
    }

    /** `handleDelete`: the id sent to `deletePost`, none when no post is loaded. */
    function DeleteRequest(): (sent: Option<PostId>)
      reads this
      ensures sent.None? <==> post.None?
      ensures sent.Some? ==> sent.value == post.value.id
    {
      if post.None? then None else Some(post.value.id)
    }
  }
}
