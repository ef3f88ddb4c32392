/** actions/like.ts: liking and unliking a post. The caller says which of the two it wants
    by passing whether the post is currently liked. */
module LikeActions {
  import opened Wrappers
  import opened Store

  const InvalidPostId := "Invalid post ID"
  const InvalidLikeStatus := "Invalid like status"
  const NotAuthenticated := "Not authenticated"
  const UnlikeFailed := "Failed to unlike post"
  const LikeFailed := "Failed to like post"

  /** `hasLiked` is None when the caller passes something that is not a boolean. The action
      trusts the flag: claiming "not liked" on a liked post adds a second row, and an
      unlike with the flag set leaves no like of the caller on the post. */
  method ToggleLike(db: Db, postId: string, hasLiked: Option<bool>, fault: bool) returns (r: Outcome)
    modifies db`likes
    ensures postId == "" ==> r == Err(InvalidPostId)
    ensures postId != "" && hasLiked.None? ==> r == Err(InvalidLikeStatus)
    ensures postId != "" && hasLiked.Some? && db.caller.None? ==> r == Err(NotAuthenticated)
    ensures postId != "" && hasLiked.Some? && db.caller.Some? ==>
      r == (if !fault then Ok else if hasLiked.value then Err(UnlikeFailed) else Err(LikeFailed))
    ensures r.Err? ==> db.likes == old(db.likes)
    ensures r.Ok? ==> (db.caller.Some? && hasLiked.Some? &&
      var mine := Like(postId, db.caller.value.id);
      db.likes == if hasLiked.value then DeleteLike(old(db.likes), postId, db.caller.value.id) else old(db.likes) + [mine])
    ensures r.Ok? && hasLiked == Some(false) && Like(postId, db.caller.value.id) in old(db.likes) ==>
      multiset(db.likes)[Like(postId, db.caller.value.id)] >= 2
    ensures r.Ok? && hasLiked == Some(true) ==> Like(postId, db.caller.value.id) !in db.likes
  {
    if postId == "" {
      return Err(InvalidPostId);
    }
    if hasLiked.None? {
      return Err(InvalidLikeStatus);
    }
    if db.caller.None? {
      return Err(NotAuthenticated);
    }
    var userId := db.caller.value.id;
    if hasLiked.value {
      if fault {
        return Err(UnlikeFailed);
      }
      db.likes := DeleteLike(db.likes, postId, userId);
    } else {
      if fault {
        return Err(LikeFailed);
      }
      db.likes := db.likes + [Like(postId, userId)];
    }
    r := Ok;
  }

  /** An unlike removes every like row of the caller on the post and touches no other row. */
  lemma UnlikeRemovesOnlyOwnLike(ls: seq<Like>, postId: string, userId: string, other: Like)
    requires other != Like(postId, userId)
    ensures Like(postId, userId) !in DeleteLike(ls, postId, userId)
    ensures multiset(DeleteLike(ls, postId, userId))[other] == multiset(ls)[other]
  {
    assert multiset(DeleteLike(ls, postId, userId))[Like(postId, userId)] == 0;
  }
}
