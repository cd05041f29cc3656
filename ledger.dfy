/** The reaction ledger of one post: the two counters and the two id lists that `likePost`
    and `dislikePost` update, as a value, with the transitions they perform. */
module Ledger {
  import opened Common
  import opened Lists

  datatype Ledger = Ledger(likes: int, dislikes: int, likedBy: seq<UserId>, dislikedBy: seq<UserId>)

  /** `list.filter(id => id.toString() !== actor.toString())`. */
  function Without(s: seq<UserId>, actor: UserId): (r: seq<UserId>)
    ensures forall u :: u in r <==> u in s && u != actor
  {
    Filter(s, (u: UserId) => u != actor)
  }

  /** The consistency the post document is meant to keep: each counter is its list's length,
      no id is listed twice, and no id both likes and dislikes. */
  ghost predicate Consistent(l: Ledger) {
    && l.likes == |l.likedBy|
    && l.dislikes == |l.dislikedBy|
    && NoDuplicates(l.likedBy)
    && NoDuplicates(l.dislikedBy)
    && (forall u :: u in l.likedBy ==> u !in l.dislikedBy)
  }

  /** What `likePost` does to the ledger: drop a dislike if there is one, then toggle the like. */
  function LikeStep(l: Ledger, actor: UserId): (r: Ledger) {
    var alreadyLiked := actor in l.likedBy;
    var alreadyDisliked := actor in l.dislikedBy;
    var l1 := if alreadyDisliked
              then l.(dislikes := l.dislikes - 1, dislikedBy := Without(l.dislikedBy, actor))
              else l;
    if alreadyLiked
    then l1.(likes := l1.likes - 1, likedBy := Without(l1.likedBy, actor))
    else l1.(likes := l1.likes + 1, likedBy := l1.likedBy + [actor])
  }

  /** What `dislikePost` does to the ledger: drop a like if there is one, then toggle the dislike. */
  function DislikeStep(l: Ledger, actor: UserId): (r: Ledger) {
    var alreadyDisliked := actor in l.dislikedBy;
    var alreadyLiked := actor in l.likedBy;
    var l1 := if alreadyLiked
              then l.(likes := l.likes - 1, likedBy := Without(l.likedBy, actor))
              else l;
    if alreadyDisliked
    then l1.(dislikes := l1.dislikes - 1, dislikedBy := Without(l1.dislikedBy, actor))
    else l1.(dislikes := l1.dislikes + 1, dislikedBy := l1.dislikedBy + [actor])
  }

  /** The same ledger seen with likes and dislikes exchanged. */
  function Mirror(l: Ledger): (r: Ledger) {
    Ledger(l.dislikes, l.likes, l.dislikedBy, l.likedBy)
  }

  /** The two handlers are mirror images of each other. */
  lemma DislikeIsMirroredLike(l: Ledger, actor: UserId)
    ensures DislikeStep(l, actor) == Mirror(LikeStep(Mirror(l), actor))
  {
  }

  // ---- facts about removing one id from a list ----

  lemma WithoutAbsent(s: seq<UserId>, actor: UserId)
    requires actor !in s
    ensures Without(s, actor) == s
  {
    FilterAll(s, (u: UserId) => u != actor);
  }

  lemma WithoutAppended(s: seq<UserId>, actor: UserId)
    requires actor !in s
    ensures Without(s + [actor], actor) == s
  {
    FilterAppend(s, [actor], (u: UserId) => u != actor);
    WithoutAbsent(s, actor);
  }

  lemma {:induction false} WithoutPresent(s: seq<UserId>, actor: UserId)
    requires NoDuplicates(s) && actor in s
    ensures |Without(s, actor)| == |s| - 1
    ensures NoDuplicates(Without(s, actor))
    decreases |s|
  {
    FilterNoDuplicates(s, (u: UserId) => u != actor);
    assert NoDuplicates(s[1..]) by {
      forall i, j | 0 <= i < j < |s| - 1 ensures s[1..][i] != s[1..][j] {
        assert s[1..][i] == s[i + 1] && s[1..][j] == s[j + 1];
      }
    }
    if s[0] == actor {
      assert actor !in s[1..];
      WithoutAbsent(s[1..], actor);
    } else {
      WithoutPresent(s[1..], actor);
    }
  }

  lemma WithoutTwice(s: seq<UserId>, actor: UserId)
    ensures Without(Without(s, actor), actor) == Without(s, actor)
  {
    WithoutAbsent(Without(s, actor), actor);
  }

  lemma AppendKeepsNoDuplicates(s: seq<UserId>, actor: UserId)
    requires NoDuplicates(s) && actor !in s
    ensures NoDuplicates(s + [actor])
  {
    var r := s + [actor];
    forall i, j | 0 <= i < j < |r| ensures r[i] != r[j] {
      if j == |s| {
        assert r[i] == s[i];
      } else {
        assert r[i] == s[i] && r[j] == s[j];
      }
    }
  }

  // ---- properties of the transitions ----

  /** After a like the actor no longer dislikes the post, and likes it exactly when it did not before. */
  lemma LikeToggles(l: Ledger, actor: UserId)
    ensures actor !in LikeStep(l, actor).dislikedBy
    ensures actor in LikeStep(l, actor).likedBy <==> actor !in l.likedBy
  {
  }

  /** After a dislike the actor no longer likes the post, and dislikes it exactly when it did not before. */
  lemma DislikeToggles(l: Ledger, actor: UserId)
    ensures actor !in DislikeStep(l, actor).likedBy
    ensures actor in DislikeStep(l, actor).dislikedBy <==> actor !in l.dislikedBy
  {
    DislikeIsMirroredLike(l, actor);
    LikeToggles(Mirror(l), actor);
  }

  /** Removing the actor from one list keeps a consistent ledger consistent. */
  lemma DropFromLikesPreserves(l: Ledger, actor: UserId)
    requires Consistent(l) && actor in l.likedBy
    ensures Consistent(l.(likes := l.likes - 1, likedBy := Without(l.likedBy, actor)))
  {
    WithoutPresent(l.likedBy, actor);
  }

  lemma DropFromDislikesPreserves(l: Ledger, actor: UserId)
    requires Consistent(l) && actor in l.dislikedBy
    ensures Consistent(l.(dislikes := l.dislikes - 1, dislikedBy := Without(l.dislikedBy, actor)))
  {
    WithoutPresent(l.dislikedBy, actor);
  }

  /** A like keeps the counters equal to the list lengths, the lists free of duplicates and disjoint. */
  lemma LikePreservesConsistency(l: Ledger, actor: UserId)
    requires Consistent(l)
    ensures Consistent(LikeStep(l, actor))
  {
    var l1 := if actor in l.dislikedBy
              then l.(dislikes := l.dislikes - 1, dislikedBy := Without(l.dislikedBy, actor))
              else l;
    if actor in l.dislikedBy {
      DropFromDislikesPreserves(l, actor);
    }
    assert Consistent(l1);
    assert actor !in l1.dislikedBy;
    if actor in l.likedBy {
      DropFromLikesPreserves(l1, actor);
    } else {
      AppendKeepsNoDuplicates(l1.likedBy, actor);
    }
  }

  lemma MirrorConsistent(l: Ledger)
    ensures Consistent(Mirror(l)) <==> Consistent(l)
  {
  }

  /** A dislike keeps the ledger consistent. */
  lemma DislikePreservesConsistency(l: Ledger, actor: UserId)
    requires Consistent(l)
    ensures Consistent(DislikeStep(l, actor))
  {
    MirrorConsistent(l);
    LikePreservesConsistency(Mirror(l), actor);
    DislikeIsMirroredLike(l, actor);
    MirrorConsistent(LikeStep(Mirror(l), actor));
  }

  /** In a consistent ledger neither counter is negative. */
  lemma ConsistentCountersNonNegative(l: Ledger)
    requires Consistent(l)
    ensures l.likes >= 0 && l.dislikes >= 0
  {
  }

  /** From no reaction, liking twice restores the ledger exactly: the push is undone by the filter. */
  lemma LikeTwiceRestores(l: Ledger, actor: UserId)
    requires actor !in l.likedBy && actor !in l.dislikedBy
    ensures LikeStep(LikeStep(l, actor), actor) == l
  {
    WithoutAppended(l.likedBy, actor);
  }

  /** From no reaction, disliking twice restores the ledger exactly. */
  lemma DislikeTwiceRestores(l: Ledger, actor: UserId)
    requires actor !in l.likedBy && actor !in l.dislikedBy
    ensures DislikeStep(DislikeStep(l, actor), actor) == l
  {
    DislikeIsMirroredLike(l, actor);
    LikeTwiceRestores(Mirror(l), actor);
    DislikeIsMirroredLike(DislikeStep(l, actor), actor);
  }

  /** Other users' entries keep their order: with the actor taken out, neither list has changed. */
  lemma LikeKeepsOthers(l: Ledger, actor: UserId)
    ensures Without(LikeStep(l, actor).likedBy, actor) == Without(l.likedBy, actor)
    ensures Without(LikeStep(l, actor).dislikedBy, actor) == Without(l.dislikedBy, actor)
  {
    WithoutTwice(l.likedBy, actor);
    WithoutTwice(l.dislikedBy, actor);
    if actor !in l.likedBy {
      FilterAppend(l.likedBy, [actor], (u: UserId) => u != actor);
      assert Without([actor], actor) == [];
    }
  }

  lemma DislikeKeepsOthers(l: Ledger, actor: UserId)
    ensures Without(DislikeStep(l, actor).likedBy, actor) == Without(l.likedBy, actor)
    ensures Without(DislikeStep(l, actor).dislikedBy, actor) == Without(l.dislikedBy, actor)
  {
    DislikeIsMirroredLike(l, actor);
    LikeKeepsOthers(Mirror(l), actor);
  }

  /** The reaction of one user to a post, as far as the ledger records it. */
  datatype Reaction = NoReaction | Likes | Dislikes

  function ReactionOf(l: Ledger, actor: UserId): (r: Reaction) {
    if actor in l.likedBy then Likes
    else if actor in l.dislikedBy then Dislikes
    else NoReaction
  }

  /** The three like transitions: none to like, like to none, dislike to like. */
  lemma LikeTransition(l: Ledger, actor: UserId)
    ensures ReactionOf(LikeStep(l, actor), actor) == if ReactionOf(l, actor) == Likes then NoReaction else Likes
  {
    LikeToggles(l, actor);
  }

  /** The three dislike transitions: none to dislike, dislike to none, like to dislike.
      Telling a dislike apart from a like needs the lists to be disjoint. */
  lemma DislikeTransition(l: Ledger, actor: UserId)
    requires forall u :: u in l.likedBy ==> u !in l.dislikedBy
    ensures ReactionOf(DislikeStep(l, actor), actor) == if ReactionOf(l, actor) == Dislikes then NoReaction else Dislikes
  {
    DislikeToggles(l, actor);
  }

  /** A concrete run: dislike, like, like. */
  lemma DislikeLikeLikeScenario(actor: UserId)
    ensures var l0 := Ledger(0, 0, [], []);
            var l1 := DislikeStep(l0, actor);
            var l2 := LikeStep(l1, actor);
            var l3 := LikeStep(l2, actor);
            && l1 == Ledger(0, 1, [], [actor])
            && l2 == Ledger(1, 0, [actor], [])
            && l3 == Ledger(0, 0, [], [])
  {
    var l1 := DislikeStep(Ledger(0, 0, [], []), actor);
    WithoutAppended([], actor);
    assert l1.dislikedBy == [actor];
    var l2 := LikeStep(l1, actor);
    assert Without([actor], actor) == [];
    assert l2 == Ledger(1, 0, [actor], []);
  }

  /** The counters stay right only because the lists hold no duplicates: with the actor listed
      twice, one like removes both entries but decrements the counter once. */
  lemma DuplicateBreaksCounter(actor: UserId)
    ensures var l := Ledger(2, 0, [actor, actor], []);
            var l' := LikeStep(l, actor);
            l.likes == |l.likedBy| && l'.likes != |l'.likedBy|
  {
    FilterNone([actor, actor], (u: UserId) => u != actor);
  }
}
