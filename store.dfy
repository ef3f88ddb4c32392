/** The backend's tables, held in memory: one record type per table, the store
    object whose fields the actions update, and the filtered queries, updates and
    deletes the actions issue (`.eq`, `.or`, `.in`, `.ilike`, `.maybeSingle`). */
module Store {
  import opened Wrappers
  import Text

  /** The identity the auth service returns for the session, if any. */
  datatype AuthUser = AuthUser(id: string, email: Option<string>)

  datatype Profile = Profile(id: string, username: string, usernameChanged: bool)
  datatype Post = Post(id: string, userId: string, content: string, imageUrl: Option<string>, createdAt: int)
  datatype Like = Like(postId: string, userId: string)
  datatype Comment = Comment(id: string, postId: string, userId: string, content: string, createdAt: int)
  datatype Follow = Follow(followerId: string, followingId: string)
  datatype RequestStatus = Pending | Accepted | Rejected
  datatype FriendRequest = FriendRequest(id: string, requesterId: string, receiverId: string, status: RequestStatus)

  /** At most one profile row per user id (the primary key of `profiles`). */
  predicate UniqueProfileIds(ps: seq<Profile>) {
    forall i, j :: 0 <= i < j < |ps| ==> ps[i].id != ps[j].id
  }

  /** No friend request names the same user at both ends. */
  predicate NoSelfRequests(rs: seq<FriendRequest>) {
    forall i :: 0 <= i < |rs| ==> rs[i].requesterId != rs[i].receiverId
  }

  /** The backend as one in-memory store, with the caller of the current request. */
  class Db {
    var caller: Option<AuthUser>
    var profiles: seq<Profile>
    var posts: seq<Post>
    var likes: seq<Like>
    var comments: seq<Comment>
    var follows: seq<Follow>
    var friendRequests: seq<FriendRequest>

    /** What every action preserves: profile ids stay unique and nobody is their own friend request. */
    ghost predicate Valid()
      reads this`profiles, this`friendRequests
    {
      UniqueProfileIds(profiles) && NoSelfRequests(friendRequests)
    }

    constructor (caller: Option<AuthUser>)
      ensures Valid() && this.caller == caller
      ensures profiles == [] && posts == [] && likes == [] && comments == []
      ensures follows == [] && friendRequests == []
    {
      this.caller := caller;
      profiles, posts, likes, comments := [], [], [], [];
      follows, friendRequests := [], [];
    }
  }

  /** The rows of `s` that satisfy `keep`, in their table order. */
  function Filter<T(!new)>(s: seq<T>, keep: T -> bool): (r: seq<T>)
    ensures |r| <= |s|
    ensures forall x :: x in r <==> x in s && keep(x)
  {
    if s == [] then [] else (if keep(s[0]) then [s[0]] else []) + Filter(s[1..], keep)
  }

  /** Filtering keeps every copy of a kept row and no copy of a dropped one. */
  lemma {:induction false} FilterMultiset<T(!new)>(s: seq<T>, keep: T -> bool)
    ensures forall x :: multiset(Filter(s, keep))[x] == if keep(x) then multiset(s)[x] else 0
  {
    if s != [] {
      assert s == [s[0]] + s[1..];
      FilterMultiset(s[1..], keep);
    }
  }

  lemma {:induction false} FilterAppend<T(!new)>(a: seq<T>, b: seq<T>, keep: T -> bool)
    ensures Filter(a + b, keep) == Filter(a, keep) + Filter(b, keep)
  {
    if a == [] {
      assert a + b == b;
    } else {
      var head := if keep(a[0]) then [a[0]] else [];
      assert (a + b)[0] == a[0] && (a + b)[1..] == a[1..] + b;
      assert Filter(a + b, keep) == head + Filter(a[1..] + b, keep);
      FilterAppend(a[1..], b, keep);
      assert Filter(a, keep) == head + Filter(a[1..], keep);
      assert head + (Filter(a[1..], keep) + Filter(b, keep)) == (head + Filter(a[1..], keep)) + Filter(b, keep);
    }
  }

  lemma {:induction false} FilterKeepsAll<T(!new)>(s: seq<T>, keep: T -> bool)
    requires forall x :: x in s ==> keep(x)
    ensures Filter(s, keep) == s
  {
    if s != [] {
      FilterKeepsAll(s[1..], keep);
    }
  }

  lemma {:induction false} FilterKeepsNone<T(!new)>(s: seq<T>, keep: T -> bool)
    requires forall x :: x in s ==> !keep(x)
    ensures Filter(s, keep) == []
  {
    if s != [] {
      FilterKeepsNone(s[1..], keep);
    }
  }

  /** Filtering keeps exactly one row when exactly one index satisfies `keep`. */
  lemma {:induction false} FilterSingle<T(!new)>(s: seq<T>, keep: T -> bool, k: nat)
    requires k < |s| && keep(s[k])
    requires forall i :: 0 <= i < |s| && i != k ==> !keep(s[i])
    ensures Filter(s, keep) == [s[k]]
  {
    if k == 0 {
      FilterKeepsNone(s[1..], keep);
    } else {
      FilterSingle(s[1..], keep, k - 1);
    }
  }

  /** The checks every text input goes through: present, non-blank once trimmed, and at
      most `max` UTF-16 code units once trimmed; the message of the first that fails. */
  function TrimmedTextError(content: string, max: nat, required: string, empty: string, tooLong: string): (r: Option<string>)
    ensures r.None? <==> content != "" && 0 < Text.Utf16Length(Text.Trim(content)) <= max
    ensures r.Some? ==> r.value in {required, empty, tooLong}
  {
    if content == "" then Some(required)
    else
      var trimmed := Text.Trim(content);
      if Text.Utf16Length(trimmed) == 0 then Some(empty)
      else if Text.Utf16Length(trimmed) > max then Some(tooLong)
      else None
  }

  /** `.maybeSingle()`: the row when exactly one matches; with none, or with several
      (an error whose `data` is null), no row. */
  function MaybeSingle<T>(rows: seq<T>): (r: Option<T>)
    ensures r.Some? <==> |rows| == 1
    ensures r.Some? ==> r.value in rows
  {
    if |rows| == 1 then Some(rows[0]) else None
  }

  /** `profiles.select().eq("id", id)` reduced to one row: the first profile with that id. */
  function FindProfile(ps: seq<Profile>, id: string): (r: Option<Profile>)
    ensures r.Some? <==> exists i :: 0 <= i < |ps| && ps[i].id == id
    ensures r.Some? ==> r.value in ps && r.value.id == id
  {
    if ps == [] then None
    else if ps[0].id == id then Some(ps[0])
    else
      var r := FindProfile(ps[1..], id);
      assert forall i :: 1 <= i < |ps| ==> ps[i] == ps[1..][i - 1];
      r
  }

  /** With unique ids the found profile is the only one with that id. */
  lemma FindProfileUnique(ps: seq<Profile>, id: string, k: nat)
    requires UniqueProfileIds(ps) && k < |ps| && ps[k].id == id
    ensures FindProfile(ps, id) == Some(ps[k])
  {
    if k > 0 && ps[0].id != id {
      FindProfileUnique(ps[1..], id, k - 1);
    }
  }

  /** The request connects `u` and `x`, whichever of them sent it. */
  predicate Befriends(r: FriendRequest, u: string, x: string) {
    (r.requesterId == u && r.receiverId == x) || (r.receiverId == u && r.requesterId == x)
  }

  /** `.eq("status", "accepted").or("requester_id.eq.u,receiver_id.eq.u")`. */
  function AcceptedInvolving(rs: seq<FriendRequest>, u: string): (r: seq<FriendRequest>)
    ensures forall x :: x in r <==> x in rs && x.status == Accepted && (x.requesterId == u || x.receiverId == u)
  {
    Filter(rs, (x: FriendRequest) => x.status == Accepted && (x.requesterId == u || x.receiverId == u))
  }

  /** `.or("and(requester_id.eq.a,receiver_id.eq.b),and(requester_id.eq.b,receiver_id.eq.a)")`. */
  function RequestsBetween(rs: seq<FriendRequest>, a: string, b: string): (r: seq<FriendRequest>)
    ensures forall x :: x in r <==> x in rs && Befriends(x, a, b)
  {
    Filter(rs, (x: FriendRequest) => Befriends(x, a, b))
  }

  /** `.update({status}).eq("id", requestId).eq("receiver_id", receiverId)`. */
  function SetRequestStatus(rs: seq<FriendRequest>, requestId: string, receiverId: string, status: RequestStatus): (r: seq<FriendRequest>)
    ensures |r| == |rs|
    ensures forall i :: 0 <= i < |rs| ==>
      r[i] == if rs[i].id == requestId && rs[i].receiverId == receiverId then rs[i].(status := status) else rs[i]
  {
    seq(|rs|, i requires 0 <= i < |rs| =>
      if rs[i].id == requestId && rs[i].receiverId == receiverId then rs[i].(status := status) else rs[i])
  }

  /** `.update({username, username_changed: true}).eq("id", id)`. */
  function SetUsernameOf(ps: seq<Profile>, id: string, username: string): (r: seq<Profile>)
    ensures |r| == |ps|
    ensures forall i :: 0 <= i < |ps| ==>
      r[i] == if ps[i].id == id then ps[i].(username := username, usernameChanged := true) else ps[i]
  {
    seq(|ps|, i requires 0 <= i < |ps| =>
      if ps[i].id == id then ps[i].(username := username, usernameChanged := true) else ps[i])
  }

  /** `profiles.select("id").ilike("username", pattern)`. */
  function ProfilesMatching(ps: seq<Profile>, pattern: string): (r: seq<Profile>)
    ensures forall p :: p in r <==> p in ps && Text.ILike(p.username, pattern)
  {
    Filter(ps, (p: Profile) => Text.ILike(p.username, pattern))
  }

  /** `profiles.select().in("id", ids)`. */
  function ProfilesWithIds(ps: seq<Profile>, ids: set<string>): (r: seq<Profile>)
    ensures forall p :: p in r <==> p in ps && p.id in ids
  {
    Filter(ps, (p: Profile) => p.id in ids)
  }

  /** `posts.select().in("user_id", ids)`. */
  function PostsByUsers(ps: seq<Post>, ids: set<string>): (r: seq<Post>)
    ensures forall p :: p in r <==> p in ps && p.userId in ids
  {
    Filter(ps, (p: Post) => p.userId in ids)
  }

  /** `posts.delete().eq("id", postId).eq("user_id", userId)`. */
  function DeleteOwnedPost(ps: seq<Post>, postId: string, userId: string): (r: seq<Post>)
    ensures forall p :: p in r <==> p in ps && !(p.id == postId && p.userId == userId)
    ensures forall p :: multiset(r)[p] == if p.id == postId && p.userId == userId then 0 else multiset(ps)[p]
  {
    FilterMultiset(ps, (p: Post) => !(p.id == postId && p.userId == userId));
    Filter(ps, (p: Post) => !(p.id == postId && p.userId == userId))
  }

  /** `likes.delete().eq("post_id", postId).eq("user_id", userId)`. */
  function DeleteLike(ls: seq<Like>, postId: string, userId: string): (r: seq<Like>)
    ensures forall l :: multiset(r)[l] == if l == Like(postId, userId) then 0 else multiset(ls)[l]
  {
    FilterMultiset(ls, (l: Like) => l != Like(postId, userId));
    Filter(ls, (l: Like) => l != Like(postId, userId))
  }

  /** `follows.delete().eq("follower_id", followerId).eq("following_id", followingId)`. */
  function DeleteFollow(fs: seq<Follow>, followerId: string, followingId: string): (r: seq<Follow>)
    ensures forall f :: multiset(r)[f] == if f == Follow(followerId, followingId) then 0 else multiset(fs)[f]
  {
    FilterMultiset(fs, (f: Follow) => f != Follow(followerId, followingId));
    Filter(fs, (f: Follow) => f != Follow(followerId, followingId))
  }

  /** Liking and then unliking a post one had not liked gives back the table as it was. */
  lemma LikeThenUnlikeRestores(ls: seq<Like>, postId: string, userId: string)
    requires Like(postId, userId) !in ls
    ensures DeleteLike(ls + [Like(postId, userId)], postId, userId) == ls
  {
    var keep := (l: Like) => l != Like(postId, userId);
    FilterAppend(ls, [Like(postId, userId)], keep);
    FilterKeepsAll(ls, keep);
  }

  /** Deleting a like with no matching row changes nothing. */
  lemma DeleteAbsentLike(ls: seq<Like>, postId: string, userId: string)
    requires Like(postId, userId) !in ls
    ensures DeleteLike(ls, postId, userId) == ls
  {
    FilterKeepsAll(ls, (l: Like) => l != Like(postId, userId));
  }

  /** Following and then unfollowing leaves no edge between the two, whatever was there before. */
  lemma FollowThenUnfollowRemovesEdge(fs: seq<Follow>, followerId: string, followingId: string)
    ensures Follow(followerId, followingId) !in DeleteFollow(fs + [Follow(followerId, followingId)], followerId, followingId)
  {
    var r := DeleteFollow(fs + [Follow(followerId, followingId)], followerId, followingId);
    assert multiset(r)[Follow(followerId, followingId)] == 0;
  }
}
