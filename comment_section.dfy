/** The comment section of a post: the comment list, the input box, and their handlers. */
module CommentSection {
  import opened Common
  import opened Strings
  import opened Lists
  import opened Views

  /** `prev.filter(c => c._id !== commentId)`. */
  function RemoveComment(comments: seq<CommentView>, id: CommentId): (r: seq<CommentView>)
    ensures forall c :: c in r <==> c in comments && c.id != id
    ensures IsSubsequence(r, comments)
    ensures forall i | 0 <= i < |comments| :: comments[i].id != id ==>
      multiset(r)[comments[i]] == multiset(comments)[comments[i]]
    ensures (forall i | 0 <= i < |comments| :: comments[i].id != id) ==> r == comments
  {
    var keep := (c: CommentView) => c.id != id;
    FilterIsSubsequence(comments, keep);
    FilterAll(comments, keep);
    FilterCounts(comments, keep);
    Filter(comments, keep)
  }

  /** Deleting a comment just added under a fresh id gives the earlier list back. */
  lemma DeleteUndoesAdd(comments: seq<CommentView>, c: CommentView)
    requires forall i | 0 <= i < |comments| :: comments[i].id != c.id
    ensures RemoveComment([c] + comments, c.id) == comments
  {
    var keep := (x: CommentView) => x.id != c.id;
    FilterAppend([c], comments, keep);
    assert [c][1..] == [];
    FilterAll(comments, keep);
  }

  /** `user?.isAdmin || user?._id === comment.author._id`. */
  predicate CanDeleteComment(user: Option<User>, c: CommentView) {
    user.Some? && (user.value.isAdmin || user.value.id == c.authorId)
  }

  /** No one signed out sees the control; a signed-in non-admin sees it on their own comments only. */
  lemma DeleteControlIff(user: Option<User>, c: CommentView)
    ensures user.None? ==> !CanDeleteComment(user, c)
    ensures user.Some? && !user.value.isAdmin ==> (CanDeleteComment(user, c) <==> user.value.id == c.authorId)
    ensures user.Some? && user.value.isAdmin ==> CanDeleteComment(user, c)
  {
  }

  class CommentSectionState {
    var comments: seq<CommentView>
    var newComment: string

    constructor (loaded: seq<CommentView>)
      ensures comments == loaded && newComment == ""
    {
      comments := loaded;
      newComment := "";
    }

    /** `handleSubmitComment`. `created` is the comment returned by `createComment`, `None` when
        the request threw. Returns whether the request was made. */
    method SubmitComment(created: Option<CommentView>) returns (called: bool)
      modifies this
      ensures called <==> !IsBlank(old(newComment))
      ensures called && created.Some? ==> comments == [created.value] + old(comments) && newComment == ""
      ensures !called || created.None? ==> comments == old(comments) && newComment == old(newComment)
    {
      TrimEmptyIffBlank(newComment);
      if Trim(newComment) == "" {
        return false;
      }
      called := true;
      if created.Some? {
        comments := [created.value] + comments;
        newComment := "";
      }
    }

    /** `handleDeleteComment`: after a request that resolved (whatever its status) the comments
        with that id go. */
    method DeleteComment(id: CommentId, resolved: bool)
      modifies this`comments
      ensures resolved ==> comments == RemoveComment(old(comments), id)
      ensures !resolved ==> comments == old(comments)
    {
      if resolved {
        comments := RemoveComment(comments, id);
      }
    }
  }
}
