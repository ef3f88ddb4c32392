/** app/profile/page.tsx: the signed-in user's own profile with their posts, their
    friends and the three counters (posts, friends, total likes). */
module ProfilePage {
  import opened Wrappers
  import opened Store
  import opened PostQuery
  import FeedPage

  /** The ids collected by the page's `forEach`, starting from an empty set: the receiver
      when the user sent the row, otherwise the requester. */
  function ProfileFriendIds(u: string, rows: seq<FriendRequest>): set<string> {
    if rows == [] then {}
    else
      var ids := ProfileFriendIds(u, rows[..|rows| - 1]);
      var q := rows[|rows| - 1];
      if q.requesterId == u then ids + {q.receiverId} else ids + {q.requesterId}
  }

  predicate AllInvolve(rows: seq<FriendRequest>, u: string) {
    forall q :: q in rows ==> q.requesterId == u || q.receiverId == u
  }

  /** On rows that all involve the user, the collected ids are exactly the users a row
      joins them to. */
  lemma {:induction false} ProfileFriendIdsMembers(u: string, rows: seq<FriendRequest>, x: string)
    requires AllInvolve(rows, u)
    ensures x in ProfileFriendIds(u, rows) <==> exists q :: q in rows && Befriends(q, u, x)
  {
    if rows != [] {
      var init, q := rows[..|rows| - 1], rows[|rows| - 1];
      assert rows == init + [q];
      assert AllInvolve(init, u);
      ProfileFriendIdsMembers(u, init, x);
      if Befriends(q, u, x) {
        assert x in ProfileFriendIds(u, rows);
      }
      if exists q' :: q' in init && Befriends(q', u, x) {
        var q' :| q' in init && Befriends(q', u, x);
        assert q' in rows;
      }
    }
  }

  /** Over the rows both pages query, the feed's ids are the profile's friends plus the
      user: the feed shows the posts of exactly the people the profile lists as friends,
      and one's own. */
  lemma FeedIsFriendsPlusSelf(u: string, rows: seq<FriendRequest>)
    requires AllInvolve(rows, u)
    ensures FeedPage.FeedFriendIds(u, rows) == ProfileFriendIds(u, rows) + {u}
  {
    forall x ensures x in FeedPage.FeedFriendIds(u, rows) <==> x in ProfileFriendIds(u, rows) + {u} {
      FeedPage.FeedFriendIdsMembers(u, rows, x);
      ProfileFriendIdsMembers(u, rows, x);
    }
  }

  /** Without requests naming the same user at both ends, nobody is listed as their own friend. */
  lemma NotOwnFriend(u: string, rows: seq<FriendRequest>)
    requires AllInvolve(rows, u) && NoSelfRequests(rows)
    ensures u !in ProfileFriendIds(u, rows)
  {
    ProfileFriendIdsMembers(u, rows, u);
  }

  /** The ids among `ids` that have a profile row. */
  function IdsWithProfile(ps: seq<Profile>, ids: set<string>): (r: set<string>)
    ensures forall x :: x in r <==> x in ids && exists p :: p in ps && p.id == x
  {
    if ps == [] then {}
    else
      var rest := IdsWithProfile(ps[1..], ids);
      assert forall p :: p in ps <==> p == ps[0] || p in ps[1..];
      (if ps[0].id in ids then {ps[0].id} else {}) + rest
  }

  /** With unique ids, the rows after the first keep unique ids and none has the first's id. */
  lemma HeadIdIsNew(ps: seq<Profile>, ids: set<string>)
    requires UniqueProfileIds(ps) && ps != []
    ensures UniqueProfileIds(ps[1..]) && ps[0].id !in IdsWithProfile(ps[1..], ids)
  {
    var rest := ps[1..];
    forall i, j | 0 <= i < j < |rest| ensures rest[i].id != rest[j].id {
      assert rest[i] == ps[i + 1] && rest[j] == ps[j + 1];
    }
    forall p | p in rest ensures p.id != ps[0].id {
      var j :| 0 <= j < |rest| && rest[j] == p;
      assert p == ps[j + 1];
    }
  }

  /** With unique profile ids, `.in("id", ids)` returns one row per id that has a profile. */
  lemma {:induction false} ProfilesWithIdsCount(ps: seq<Profile>, ids: set<string>)
    requires UniqueProfileIds(ps)
    ensures |ProfilesWithIds(ps, ids)| == |IdsWithProfile(ps, ids)|
  {
    if ps != [] {
      HeadIdIsNew(ps, ids);
      ProfilesWithIdsCount(ps[1..], ids);
      var restFound := IdsWithProfile(ps[1..], ids);
      if ps[0].id in ids {
        assert ProfilesWithIds(ps, ids) == [ps[0]] + ProfilesWithIds(ps[1..], ids);
        assert IdsWithProfile(ps, ids) == {ps[0].id} + restFound;
        assert |{ps[0].id} + restFound| == |restFound| + 1;
      } else {
        assert ProfilesWithIds(ps, ids) == ProfilesWithIds(ps[1..], ids);
      }
    }
  }

  datatype ProfileView =
    | Redirect(to: string)
    | ProfileNotFound
    | Page(profile: Profile, posts: seq<PostView>, friends: seq<Profile>,
           postCount: nat, friendCount: nat, totalLikes: nat)

  /** The page's `forEach` over the friend-request rows. */
  method CollectFriendIds(u: string, rows: seq<FriendRequest>) returns (friendIds: set<string>)
    ensures friendIds == ProfileFriendIds(u, rows)
  {
    friendIds := {};
    var i := 0;
    while i < |rows|
      invariant 0 <= i <= |rows|
      invariant friendIds == ProfileFriendIds(u, rows[..i])
    {
      var q := rows[i];
      assert rows[..i + 1] == rows[..i] + [q];
      if q.requesterId == u {
        friendIds := friendIds + {q.receiverId};
      } else {
        friendIds := friendIds + {q.requesterId};
      }
      i := i + 1;
    }
    assert rows[..i] == rows;
  }

  /** The ids the page collects are the users an accepted request joins to `u`. */
  lemma FriendIdsMeaning(rs: seq<FriendRequest>, u: string, x: string)
    ensures x in ProfileFriendIds(u, AcceptedInvolving(rs, u)) <==>
      exists q :: q in rs && q.status == Accepted && Befriends(q, u, x)
  {
    ProfileFriendIdsMembers(u, AcceptedInvolving(rs, u), x);
  }

  /** With unique profile ids, the rows `.in("id", ids)` returns have pairwise different ids. */
  lemma OneRowPerId(ps: seq<Profile>, ids: set<string>)
    requires UniqueProfileIds(ps)
    ensures var found := ProfilesWithIds(ps, ids);
      |found| == |set p | p in found :: p.id|
  {
    var found := ProfilesWithIds(ps, ids);
    ProfilesWithIdsCount(ps, ids);
    assert (set p | p in found :: p.id) == IdsWithProfile(ps, ids);
  }

  /** The friend list the page shows: the profiles of the users an accepted request joins
      to `u`, never `u`, and one row per friend. */
  lemma FriendListFacts(ps: seq<Profile>, rs: seq<FriendRequest>, u: string)
    requires UniqueProfileIds(ps) && NoSelfRequests(rs)
    ensures var friends := ProfilesWithIds(ps, ProfileFriendIds(u, AcceptedInvolving(rs, u)));
      (forall p :: p in friends <==>
         p in ps && exists q :: q in rs && q.status == Accepted && Befriends(q, u, p.id))
      && (forall p :: p in friends ==> p.id != u)
      && |friends| == |set p | p in friends :: p.id|
  {
    var rows := AcceptedInvolving(rs, u);
    var friendIds := ProfileFriendIds(u, rows);
    forall x ensures x in friendIds <==> exists q :: q in rs && q.status == Accepted && Befriends(q, u, x) {
      FriendIdsMeaning(rs, u, x);
    }
    assert NoSelfRequests(rows) by {
      forall k | 0 <= k < |rows| ensures rows[k].requesterId != rows[k].receiverId {
        assert rows[k] in rs;
      }
    }
    NotOwnFriend(u, rows);
    OneRowPerId(ps, friendIds);
  }

  /** The counters under the user's own posts: how many, and their total likes. */
  lemma OwnPostFacts(ls: seq<Like>, cs: seq<Comment>, ps: seq<Post>, u: string)
    ensures var own := PostsByUsers(ps, {u});
      TotalLikes(Listed(ls, cs, own)) == LikeTotal(ls, own)
      && (DistinctPostIds(ps) ==> TotalLikes(Listed(ls, cs, own)) == |LikesOnPosts(ls, PostIds(own))|)
  {
    var own := PostsByUsers(ps, {u});
    ListedTotalLikes(ls, cs, own);
    if DistinctPostIds(ps) {
      PostsByUsersDistinct(ps, {u});
    }
  }

  method Profile(db: Db) returns (r: ProfileView)
    requires db.Valid()
    ensures db.caller.None? <==> r == Redirect("/login")
    ensures db.caller.Some? ==>
      (FindProfile(db.profiles, db.caller.value.id).None? <==> r.ProfileNotFound?)
    ensures r.Page? ==> var u := db.caller.value.id;
      var own := PostsByUsers(db.posts, {u});
      Some(r.profile) == FindProfile(db.profiles, u)
      && Listing(r.posts, db.likes, db.comments, own)
      && (forall p :: p in r.friends <==>
            p in db.profiles && exists q :: q in db.friendRequests && q.status == Accepted && Befriends(q, u, p.id))
      && (forall p :: p in r.friends ==> p.id != u)
      && r.postCount == |own|
      && r.friendCount == |set p | p in r.friends :: p.id|
      && r.totalLikes == LikeTotal(db.likes, own)
      && (DistinctPostIds(db.posts) ==> r.totalLikes == |LikesOnPosts(db.likes, PostIds(own))|)
  {
    if db.caller.None? {
      return Redirect("/login");
    }
    var u := db.caller.value.id;
    var profile := FindProfile(db.profiles, u);
    if profile.None? {
      return ProfileNotFound;
    }
    var own := PostsByUsers(db.posts, {u});
    var posts := Listed(db.likes, db.comments, own);
    var friendIds := CollectFriendIds(u, AcceptedInvolving(db.friendRequests, u));
    var friends := ProfilesWithIds(db.profiles, friendIds);
    FriendListFacts(db.profiles, db.friendRequests, u);
    OwnPostFacts(db.likes, db.comments, db.posts, u);
    r := Page(profile.value, posts, friends, |posts|, |friends|, TotalLikes(posts));
  }
}
