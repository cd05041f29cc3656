/** The user dashboard: the posts it lists for the signed-in user and its delete handler. */
module Dashboard {
  import opened Common
  import opened Lists
  import opened Views

  /** `user?._id`. */
  function UserIdOf(user: Option<User>): (r: Option<UserId>) {
    if user.Some? then Some(user.value.id) else None
  }

  /** `post?.author?._id === user?._id || user?.isAdmin`. */
  predicate VisibleTo(user: Option<User>, p: PostView) {
    p.authorId == UserIdOf(user) || (user.Some? && user.value.isAdmin)
  }

  /** The filter applied to the fetched posts. */
  function Visible(fetched: seq<PostView>, user: Option<User>): (r: seq<PostView>)
    ensures IsSubsequence(r, fetched)
    ensures user.Some? && user.value.isAdmin ==> r == fetched
    ensures user.Some? && !user.value.isAdmin ==>
      forall p :: p in r <==> p in fetched && p.authorId == Some(user.value.id)
    ensures user.None? ==> forall p :: p in r <==> p in fetched && p.authorId.None?
    ensures forall i | 0 <= i < |fetched| ::
      (if user.Some? then user.value.isAdmin || fetched[i].authorId == Some(user.value.id)
       else fetched[i].authorId.None?) ==>
      multiset(r)[fetched[i]] == multiset(fetched)[fetched[i]]
  {
    FilterIsSubsequence(fetched, (p: PostView) => VisibleTo(user, p));
    FilterAll(fetched, (p: PostView) => VisibleTo(user, p));
    FilterCounts(fetched, (p: PostView) => VisibleTo(user, p));
    Filter(fetched, (p: PostView) => VisibleTo(user, p))
  }

  class DashboardPage {
    var posts: seq<PostView>

    constructor ()
      ensures posts == []
    {
      posts := [];
    }

    /** The load effect, which only runs for an authenticated visitor (anyone else is
        redirected). `fetched` is the posts of the response, `None` when the request threw. */
    method Load(isAuthenticated: bool, user: Option<User>, fetched: Option<seq<PostView>>)
      modifies this`posts
      ensures isAuthenticated && fetched.Some? ==> posts == Visible(fetched.value, user)
      ensures !isAuthenticated || fetched.None? ==> posts == old(posts)
    {
      if isAuthenticated && fetched.Some? {
        posts := Visible(fetched.value, user);
      }
    }

    /** `handleDeletePost`: after the confirmation and a request that resolved (whatever its
        status, since the client does not look at it), the posts with that id go. */
    method DeletePost(id: PostId, confirmed: bool, resolved: bool)
      modifies this`posts
      ensures confirmed && resolved ==> posts == RemovePost(old(posts), id)
      ensures !(confirmed && resolved) ==> posts == old(posts)
    {
      if confirmed && resolved {
        posts := RemovePost(posts, id);
      }
    }
  }
}
