/** The admin dashboard: the post and user tables and their delete handlers, which replace the
    lists by filtered copies, and the per-user post count. */
module AdminDashboard {
  import opened Common
  import opened Lists
  import opened Views

  /** A user row as the users table shows it. */
  datatype UserView = UserView(id: UserId, name: string, isAdmin: bool)

  /** `users.filter(u => u._id !== id)`. */
  function RemoveUser(users: seq<UserView>, id: UserId): (r: seq<UserView>)
    ensures forall u :: u in r <==> u in users && u.id != id
    ensures IsSubsequence(r, users)
    ensures forall i | 0 <= i < |users| :: users[i].id != id ==>
      multiset(r)[users[i]] == multiset(users)[users[i]]
  {
    FilterIsSubsequence(users, (u: UserView) => u.id != id);
    FilterCounts(users, (u: UserView) => u.id != id);
    Filter(users, (u: UserView) => u.id != id)
  }

  /** `posts.filter(post => post.author._id !== id)`. */
  function PostsNotBy(posts: seq<PostView>, id: UserId): (r: seq<PostView>)
    ensures forall p :: p in r <==> p in posts && p.authorId != Some(id)
    ensures IsSubsequence(r, posts)
    ensures forall i | 0 <= i < |posts| :: posts[i].authorId != Some(id) ==>
      multiset(r)[posts[i]] == multiset(posts)[posts[i]]
  {
    FilterIsSubsequence(posts, (p: PostView) => p.authorId != Some(id));
    FilterCounts(posts, (p: PostView) => p.authorId != Some(id));
    Filter(posts, (p: PostView) => p.authorId != Some(id))
  }

  /** `posts.filter(post => post.author._id === user._id).length`. */
  function UserPostCount(posts: seq<PostView>, id: UserId): (n: nat)
    ensures n <= |posts|
    ensures n == 0 <==> forall i | 0 <= i < |posts| :: posts[i].authorId != Some(id)
  {
    FilterNone(posts, (p: PostView) => p.authorId == Some(id));
    |Filter(posts, (p: PostView) => p.authorId == Some(id))|
  }

  /** After a user is deleted the table shows no post for them. */
  lemma DeletedUserHasNoPosts(posts: seq<PostView>, id: UserId)
    ensures UserPostCount(PostsNotBy(posts, id), id) == 0
  {
  }

  /** Deleting one user does not change any other user's count. */
  lemma OtherCountsKept(posts: seq<PostView>, id: UserId, other: UserId)
    requires other != id
    ensures UserPostCount(PostsNotBy(posts, id), other) == UserPostCount(posts, other)
  {
    var notBy := (p: PostView) => p.authorId != Some(id);
    var byOther := (p: PostView) => p.authorId == Some(other);
    FilterFilter(posts, notBy, byOther, byOther);
  }

  /** Deleting a user removes exactly as many posts as their count showed. */
  lemma DeleteRemovesCount(posts: seq<PostView>, id: UserId)
    ensures |PostsNotBy(posts, id)| == |posts| - UserPostCount(posts, id)
  {
    FilterSplitsLength(posts, (p: PostView) => p.authorId == Some(id), (p: PostView) => p.authorId != Some(id));
  }

  class AdminDashboardPage {
    /** The signed-in admin. */
    const me: UserId
    var posts: seq<PostView>
    var users: seq<UserView>

    constructor (me: UserId, posts: seq<PostView>, users: seq<UserView>)
      ensures this.me == me && this.posts == posts && this.users == users
    {
      this.me := me;
      this.posts := posts;
      this.users := users;
    }

    /** `handleDeletePost`: after the confirmation and a request that resolved (whatever its
        status, since the client does not look at it), the posts with that id go. */
    method DeletePost(id: PostId, confirmed: bool, resolved: bool)
      modifies this`posts
      ensures confirmed && resolved ==> posts == RemovePost(old(posts), id)
      ensures !(confirmed && resolved) ==> posts == old(posts)
    {
      if confirmed && resolved {
        posts := RemovePost(posts, id);
      }
    }

    /** `handleDeleteUser`: one's own account is refused before asking; otherwise, after the
        confirmation and a request that resolved, the user and all their posts go. */
    method DeleteUser(id: UserId, confirmed: bool, resolved: bool) returns (refused: bool)
      modifies this`posts, this`users
      ensures refused <==> id == me
      ensures !refused && confirmed && resolved ==>
        users == RemoveUser(old(users), id) && posts == PostsNotBy(old(posts), id)
      ensures refused || !confirmed || !resolved ==> users == old(users) && posts == old(posts)
    {
      if id == me {
        return true;
      }
      refused := false;
      if confirmed && resolved {
        users := RemoveUser(users, id);
        posts := PostsNotBy(posts, id);
      }
    }
  }
}
