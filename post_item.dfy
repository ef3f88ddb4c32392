/** app/components/PostItem.tsx: what one post card derives from the post it shows, and
    what its like and delete buttons send. */
module PostItem {
  import opened Wrappers
  import opened Store
  import opened PostQuery
  import LikeActions
  import PostActions

  /** `post.user_id === userId`. */
  predicate IsOwner(v: PostView, userId: string) {
    v.post.userId == userId
  }

  /** `post.likes?.some(like => like.user_id === userId)`: undefined without a like list. */
  function HasLiked(v: PostView, userId: string): (r: Option<bool>)
    ensures v.likes.None? <==> r.None?
    ensures v.likes.Some? ==> (r == Some(true) <==> exists i :: 0 <= i < |v.likes.value| && v.likes.value[i] == userId)
  {
    if v.likes.None? then None else Some(userId in v.likes.value)
  }

  /** On a post as the feed or profile query returns it, the flag says whether the table
      holds the user's like on that post. */
  lemma HasLikedOfView(ls: seq<Like>, cs: seq<Comment>, p: Post, userId: string)
    ensures HasLiked(ViewOf(ls, cs, p), userId) == Some(Like(p.id, userId) in ls)
  {
    var on := LikesOn(ls, p.id);
    var ids := UserIdsOf(on);
    if Like(p.id, userId) in ls {
      var k :| 0 <= k < |on| && on[k] == Like(p.id, userId);
      assert ids[k] == userId;
    }
    if userId in ids {
      var k :| 0 <= k < |ids| && ids[k] == userId;
      assert on[k] in on;
    }
  }

  /** The like button: `toggleLike(post.id, hasLiked)`. */
  method LikeClick(db: Db, v: PostView, userId: string, fault: bool) returns (r: Outcome)
    modifies db`likes
    ensures v.post.id != "" && v.likes.None? ==> r == Err(LikeActions.InvalidLikeStatus) && db.likes == old(db.likes)
    ensures r.Ok? ==> (db.caller.Some? && v.likes.Some? &&
      var mine := Like(v.post.id, db.caller.value.id);
      db.likes == if userId in v.likes.value then DeleteLike(old(db.likes), v.post.id, db.caller.value.id)
                  else old(db.likes) + [mine])
    ensures r.Err? ==> db.likes == old(db.likes)
  {
    r := LikeActions.ToggleLike(db, v.post.id, HasLiked(v, userId), fault);
  }

  /** Clicking like on a freshly loaded card, as its signed-in viewer, flips whether the
      viewer likes the post. */
  lemma LikeClickFlips(ls: seq<Like>, cs: seq<Comment>, p: Post, userId: string)
    ensures var v := ViewOf(ls, cs, p);
      v.likes.Some?
      && (HasLiked(v, userId) == Some(true) <==> Like(p.id, userId) in ls)
      && var after := if userId in v.likes.value then DeleteLike(ls, p.id, userId) else ls + [Like(p.id, userId)];
         (Like(p.id, userId) in after <==> Like(p.id, userId) !in ls)
  {
    HasLikedOfView(ls, cs, p, userId);
    assert multiset(DeleteLike(ls, p.id, userId))[Like(p.id, userId)] == 0;
  }

  /** The delete button: shown only to the owner, and acting only after confirmation.
      None means nothing was sent. */
  method DeleteClick(db: Db, v: PostView, userId: string, confirmed: bool, fault: bool) returns (r: Option<Outcome>)
    modifies db`posts
    ensures r.Some? <==> IsOwner(v, userId) && confirmed
    ensures r.None? ==> db.posts == old(db.posts)
    ensures r.Some? && r.value.Ok? ==> (db.caller.Some? &&
      db.posts == DeleteOwnedPost(old(db.posts), v.post.id, db.caller.value.id))
    ensures r.Some? && r.value.Err? ==> db.posts == old(db.posts)
  {
    if !(IsOwner(v, userId) && confirmed) {
      return None;
    }
    var outcome := PostActions.DeletePost(db, v.post.id, fault);
    r := Some(outcome);
  }

  /** The counters on the card are the number of like and comment rows on the post. */
  lemma CardCounts(ls: seq<Like>, cs: seq<Comment>, p: Post)
    ensures LikeCount(ViewOf(ls, cs, p)) == |LikesOn(ls, p.id)|
    ensures CommentCount(ViewOf(ls, cs, p)) == |CommentsOn(cs, p.id)|
  {
  }
}
