/** app/feed/page.tsx: the feed shows, newest first, the posts of the signed-in user and
    of every user joined to them by an accepted friend request. */
module FeedPage {
  import opened Wrappers
  import opened Store
  import opened PostQuery

  /** The ids collected by the page's `forEach`, seeded with the user's own id: for each
      row the receiver when the user sent it, else the requester when the user received it. */
  function FeedFriendIds(u: string, rows: seq<FriendRequest>): set<string> {
    if rows == [] then {u}
    else
      var ids := FeedFriendIds(u, rows[..|rows| - 1]);
      var q := rows[|rows| - 1];
      if q.requesterId == u then ids + {q.receiverId}
      else if q.receiverId == u then ids + {q.requesterId}
      else ids
  }

  /** The collected ids are the user and everyone a row joins them to, in either direction. */
  lemma {:induction false} FeedFriendIdsMembers(u: string, rows: seq<FriendRequest>, x: string)
    ensures x in FeedFriendIds(u, rows) <==> x == u || exists q :: q in rows && Befriends(q, u, x)
  {
    if rows != [] {
      var init, q := rows[..|rows| - 1], rows[|rows| - 1];
      assert rows == init + [q];
      FeedFriendIdsMembers(u, init, x);
      if x != u && Befriends(q, u, x) {
        assert x in FeedFriendIds(u, rows);
      }
      if exists q' :: q' in init && Befriends(q', u, x) {
        var q' :| q' in init && Befriends(q', u, x);
        assert q' in rows;
      }
    }
  }

  /** The page as rendered: the signed-in user's id is dereferenced without a check, so
      without a session the page fails. */
  datatype FeedView = Crashed | Rendered(friendIds: set<string>, posts: seq<PostView>)

  /** The page's `forEach` over the friend-request rows, seeded with the user's own id. */
  method CollectFeedIds(u: string, rows: seq<FriendRequest>) returns (friendIds: set<string>)
    ensures friendIds == FeedFriendIds(u, rows)
  {
    friendIds := {u};
    var i := 0;
    while i < |rows|
      invariant 0 <= i <= |rows|
      invariant friendIds == FeedFriendIds(u, rows[..i])
    {
      var q := rows[i];
      assert rows[..i + 1] == rows[..i] + [q];
      if q.requesterId == u {
        friendIds := friendIds + {q.receiverId};
      } else if q.receiverId == u {
        friendIds := friendIds + {q.requesterId};
      }
      i := i + 1;
    }
    assert rows[..i] == rows;
  }

  /** The ids the page collects: the user, and everyone an accepted request joins them
      to unless the friend-request query failed. */
  lemma FeedIdsMeaning(rs: seq<FriendRequest>, u: string, requestsFail: bool)
    ensures var rows := if requestsFail then [] else AcceptedInvolving(rs, u);
      forall x :: x in FeedFriendIds(u, rows) <==>
        x == u || (!requestsFail && exists q :: q in rs && q.status == Accepted && Befriends(q, u, x))
  {
    var rows := if requestsFail then [] else AcceptedInvolving(rs, u);
    forall x ensures x in FeedFriendIds(u, rows) <==>
      x == u || (!requestsFail && exists q :: q in rs && q.status == Accepted && Befriends(q, u, x))
    {
      FeedFriendIdsMembers(u, rows, x);
    }
  }

  /** A listing shows exactly the rows it was built from. */
  lemma ListedMembers(ls: seq<Like>, cs: seq<Comment>, rows: seq<Post>)
    ensures forall p :: p in PostsOf(Listed(ls, cs, rows)) <==> p in rows
  {
    var ps := PostsOf(Listed(ls, cs, rows));
    forall p ensures p in ps <==> p in rows {
      assert p in ps <==> p in multiset(ps);
      assert p in rows <==> p in multiset(rows);
    }
  }

  /** A read failure of the friend-request query leaves only the user's own id; a read
      failure of the post query is logged and the page shows an empty feed. */
  method Feed(db: Db, requestsFail: bool, postsFail: bool) returns (r: FeedView)
    ensures db.caller.None? <==> r.Crashed?
    ensures r.Rendered? ==> var u := db.caller.value.id;
      (forall x :: x in r.friendIds <==>
         x == u || (!requestsFail && exists q :: q in db.friendRequests && q.status == Accepted && Befriends(q, u, x)))
      && (postsFail ==> r.posts == [])
      && (!postsFail ==> Listing(r.posts, db.likes, db.comments, PostsByUsers(db.posts, r.friendIds)))
      && (forall p :: p in PostsOf(r.posts) <==> !postsFail && p in db.posts && p.userId in r.friendIds)
  {
    if db.caller.None? {
      return Crashed;
    }
    var u := db.caller.value.id;
    var rows := if requestsFail then [] else AcceptedInvolving(db.friendRequests, u);
    var friendIds := CollectFeedIds(u, rows);
    FeedIdsMeaning(db.friendRequests, u, requestsFail);
    var posts: seq<PostView> := [];
    if !postsFail {
      var matching := PostsByUsers(db.posts, friendIds);
      posts := Listed(db.likes, db.comments, matching);
      ListedMembers(db.likes, db.comments, matching);
    }
    r := Rendered(friendIds, posts);
  }
}
