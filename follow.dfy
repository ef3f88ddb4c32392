/** actions/follow.ts: following and unfollowing another user. */
module FollowActions {
  import opened Wrappers
  import opened Store

  const InvalidUserId := "Invalid user ID"
  const NotAuthenticated := "Not authenticated"
  const SelfFollow := "Cannot follow yourself"
  const FollowFailed := "Failed to follow user"
  const UnfollowFailed := "Failed to unfollow user"

  method FollowUser(db: Db, targetUserId: string, fault: bool) returns (r: Outcome)
    modifies db`follows
    ensures targetUserId == "" ==> r == Err(InvalidUserId)
    ensures targetUserId != "" && db.caller.None? ==> r == Err(NotAuthenticated)
    ensures targetUserId != "" && db.caller.Some? && db.caller.value.id == targetUserId ==> r == Err(SelfFollow)
    ensures targetUserId != "" && db.caller.Some? && db.caller.value.id != targetUserId ==>
      r == if fault then Err(FollowFailed) else Ok
    ensures r.Err? ==> db.follows == old(db.follows)
    ensures r.Ok? ==> (db.caller.Some? && db.caller.value.id != targetUserId &&
      db.follows == old(db.follows) + [Follow(db.caller.value.id, targetUserId)])
  {
    if targetUserId == "" {
      return Err(InvalidUserId);
    }
    if db.caller.None? {
      return Err(NotAuthenticated);
    }
    if db.caller.value.id == targetUserId {
      return Err(SelfFollow);
    }
    if fault {
      return Err(FollowFailed);
    }
    db.follows := db.follows + [Follow(db.caller.value.id, targetUserId)];
    r := Ok;
  }

  /** Unlike following, unfollowing has no self check: it deletes whatever edge matches. */
  method UnfollowUser(db: Db, targetUserId: string, fault: bool) returns (r: Outcome)
    modifies db`follows
    ensures targetUserId == "" ==> r == Err(InvalidUserId)
    ensures targetUserId != "" && db.caller.None? ==> r == Err(NotAuthenticated)
    ensures targetUserId != "" && db.caller.Some? ==> r == if fault then Err(UnfollowFailed) else Ok
    ensures r.Err? ==> db.follows == old(db.follows)
    ensures r.Ok? ==> (db.caller.Some? &&
      db.follows == DeleteFollow(old(db.follows), db.caller.value.id, targetUserId))
  {
    if targetUserId == "" {
      return Err(InvalidUserId);
    }
    if db.caller.None? {
      return Err(NotAuthenticated);
    }
    if fault {
      return Err(UnfollowFailed);
    }
    db.follows := DeleteFollow(db.follows, db.caller.value.id, targetUserId);
    r := Ok;
  }

  /** No follow edge from a user to themselves is ever added by the action. */
  predicate NoSelfFollows(fs: seq<Follow>) {
    forall i :: 0 <= i < |fs| ==> fs[i].followerId != fs[i].followingId
  }

  /** Unfollowing keeps a table free of self edges free of them. */
  lemma {:induction false} UnfollowKeepsNoSelfFollows(fs: seq<Follow>, followerId: string, followingId: string)
    requires NoSelfFollows(fs)
    ensures NoSelfFollows(DeleteFollow(fs, followerId, followingId))
  {
    var r := DeleteFollow(fs, followerId, followingId);
    forall i | 0 <= i < |r| ensures r[i].followerId != r[i].followingId {
      assert multiset(r)[r[i]] > 0;
      assert r[i] in multiset(fs);
      var k :| 0 <= k < |fs| && fs[k] == r[i];
    }
  }
}
