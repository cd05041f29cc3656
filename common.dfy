/** Identifiers and small records shared by the backend controller and the pages. */
module Common {

  /** Document identifiers are compared by their string form, as the controller does with `toString()`. */
  type UserId = string
  type PostId = string
  type CommentId = string

  datatype Option<T> = None | Some(value: T) {
    function GetOr(default: T): (r: T) {
      match this
      case Some(v) => v
      case None => default
    }
  }

  /** The authenticated user: the backend's `req.user`, the frontend's `user` from the auth context. */
  datatype User = User(id: UserId, isAdmin: bool)

  /** The body of a like or dislike reply: `{ _id, likes, dislikes }`. */
  datatype ReactionCounts = ReactionCounts(id: PostId, likes: int, dislikes: int)

  /** JavaScript truthiness of an optional string: absent and empty are both falsy. */
  predicate Truthy(s: Option<string>) {
    s.Some? && s.value != ""
  }

  /** `x || undefined` for a string `x`: an empty string becomes absent. */
  function OrUndefined(s: string): (r: Option<string>)
    ensures r.None? <==> s == ""
    ensures r.Some? ==> r.value == s
  {
    if s == "" then None else Some(s)
  }
}
