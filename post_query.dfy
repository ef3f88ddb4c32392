/** The post query shared by the feed and profile pages: posts with their likes and
    comments nested (`likes(user_id)`, `comments(...)`), ordered by `created_at`
    descending, and the counts the pages derive from a post (`likes?.length || 0`). */
module PostQuery {
  import opened Wrappers
  import opened Store

  /** A post as a page receives it; a nested list the backend did not return is None. */
  datatype PostView = PostView(post: Post, likes: Option<seq<string>>, comments: Option<seq<Comment>>)

  /** `post.likes?.length || 0`. */
  function LikeCount(v: PostView): (n: nat)
    ensures v.likes.None? ==> n == 0
    ensures v.likes.Some? ==> n == |v.likes.value|
  {
    if v.likes.Some? then |v.likes.value| else 0
  }

  /** `post.comments?.length || 0`. */
  function CommentCount(v: PostView): (n: nat)
    ensures v.comments.None? ==> n == 0
    ensures v.comments.Some? ==> n == |v.comments.value|
  {
    if v.comments.Some? then |v.comments.value| else 0
  }

  /** `posts.reduce((acc, p) => acc + (p.likes?.length || 0), 0)`. */
  function TotalLikes(vs: seq<PostView>): nat {
    if vs == [] then 0 else TotalLikes(vs[..|vs| - 1]) + LikeCount(vs[|vs| - 1])
  }

  /** `.order("created_at", { ascending: false })`: newest first. */
  predicate NewestFirst(s: seq<Post>) {
    forall i, j :: 0 <= i < j < |s| ==> s[i].createdAt >= s[j].createdAt
  }

  /** In a newest-first list the head is at least as new as every row. */
  lemma HeadIsNewest(s: seq<Post>)
    requires NewestFirst(s) && s != []
    ensures forall y :: y in s ==> y.createdAt <= s[0].createdAt
  {
    forall y | y in s ensures y.createdAt <= s[0].createdAt {
      var k :| 0 <= k < |s| && s[k] == y;
    }
  }

  /** A row at least as new as every row of a newest-first list can go in front of it. */
  lemma PrependNewest(x: Post, s: seq<Post>)
    requires NewestFirst(s)
    requires forall y :: y in s ==> y.createdAt <= x.createdAt
    ensures NewestFirst([x] + s)
  {
    var r := [x] + s;
    forall i, j | 0 <= i < j < |r| ensures r[i].createdAt >= r[j].createdAt {
      assert r[j] == s[j - 1];
      if i > 0 {
        assert r[i] == s[i - 1];
      } else {
        assert s[j - 1] in s;
      }
    }
  }

  /** Insertion of one row into a list, before the first row that is not newer. */
  function InsertByDate(x: Post, s: seq<Post>): seq<Post> {
    if s == [] || x.createdAt >= s[0].createdAt then [x] + s
    else [s[0]] + InsertByDate(x, s[1..])
  }

  /** Inserting into a newest-first list keeps it newest first and adds exactly the row. */
  lemma {:induction false} InsertByDateFacts(x: Post, s: seq<Post>)
    requires NewestFirst(s)
    ensures NewestFirst(InsertByDate(x, s))
    ensures multiset(InsertByDate(x, s)) == multiset(s) + multiset{x}
  {
    if s == [] {
    } else if x.createdAt >= s[0].createdAt {
      HeadIsNewest(s);
      PrependNewest(x, s);
    } else {
      var tail := s[1..];
      assert s == [s[0]] + tail;
      assert NewestFirst(tail) by {
        forall i, j | 0 <= i < j < |tail| ensures tail[i].createdAt >= tail[j].createdAt {
          assert tail[i] == s[i + 1] && tail[j] == s[j + 1];
        }
      }
      InsertByDateFacts(x, tail);
      var rest := InsertByDate(x, tail);
      HeadIsNewest(s);
      forall y | y in rest ensures y.createdAt <= s[0].createdAt {
        assert y in multiset(rest);
        if y != x {
          assert y in multiset(tail);
          assert y in s;
        }
      }
      PrependNewest(s[0], rest);
      assert InsertByDate(x, s) == [s[0]] + rest;
      assert multiset([s[0]] + rest) == multiset{s[0]} + multiset(rest);
    }
  }

  /** The order the backend returns: newest first, and exactly the rows it was given.
      Rows with equal `created_at` come in an order the model fixes but does not promise. */
  function SortNewestFirst(s: seq<Post>): (r: seq<Post>)
    ensures NewestFirst(r)
    ensures multiset(r) == multiset(s) && |r| == |s|
  {
    if s == [] then []
    else
      assert s == [s[0]] + s[1..];
      InsertByDateFacts(s[0], SortNewestFirst(s[1..]));
      InsertByDate(s[0], SortNewestFirst(s[1..]))
  }

  /** `likes.select().eq("post_id", postId)`. */
  function LikesOn(ls: seq<Like>, postId: string): (r: seq<Like>)
    ensures forall l :: l in r <==> l in ls && l.postId == postId
  {
    Filter(ls, (l: Like) => l.postId == postId)
  }

  /** The likes on any of the posts in `ids`. */
  function LikesOnPosts(ls: seq<Like>, ids: set<string>): (r: seq<Like>)
    ensures forall l :: l in r <==> l in ls && l.postId in ids
  {
    Filter(ls, (l: Like) => l.postId in ids)
  }

  /** `comments.select().eq("post_id", postId)`. */
  function CommentsOn(cs: seq<Comment>, postId: string): (r: seq<Comment>)
    ensures forall c :: c in r <==> c in cs && c.postId == postId
  {
    Filter(cs, (c: Comment) => c.postId == postId)
  }

  function UserIdsOf(ls: seq<Like>): (r: seq<string>)
    ensures |r| == |ls| && forall i :: 0 <= i < |ls| ==> r[i] == ls[i].userId
  {
    seq(|ls|, i requires 0 <= i < |ls| => ls[i].userId)
  }

  /** One post with `likes(user_id)` and `comments(...)` nested, as the store returns it. */
  function ViewOf(ls: seq<Like>, cs: seq<Comment>, p: Post): (v: PostView)
    ensures v.post == p && v.likes.Some? && v.comments.Some?
    ensures LikeCount(v) == |LikesOn(ls, p.id)|
  {
    PostView(p, Some(UserIdsOf(LikesOn(ls, p.id))), Some(CommentsOn(cs, p.id)))
  }

  function ViewsOf(ls: seq<Like>, cs: seq<Comment>, ps: seq<Post>): (vs: seq<PostView>)
    ensures |vs| == |ps| && forall i :: 0 <= i < |ps| ==> vs[i] == ViewOf(ls, cs, ps[i])
  {
    seq(|ps|, i requires 0 <= i < |ps| => ViewOf(ls, cs, ps[i]))
  }

  /** The sum over `ps` of each post's number of likes. */
  function LikeTotal(ls: seq<Like>, ps: seq<Post>): nat {
    if ps == [] then 0 else LikeTotal(ls, ps[..|ps| - 1]) + |LikesOn(ls, ps[|ps| - 1].id)|
  }

  predicate DistinctPostIds(ps: seq<Post>) {
    forall i, j :: 0 <= i < j < |ps| ==> ps[i].id != ps[j].id
  }

  function PostIds(ps: seq<Post>): set<string> {
    set p | p in ps :: p.id
  }

  /** The page's reduce over nested like lists is the like total of the posts. */
  lemma {:induction false} TotalLikesOfViews(ls: seq<Like>, cs: seq<Comment>, ps: seq<Post>)
    ensures TotalLikes(ViewsOf(ls, cs, ps)) == LikeTotal(ls, ps)
  {
    if ps != [] {
      var vs := ViewsOf(ls, cs, ps);
      assert vs[..|vs| - 1] == ViewsOf(ls, cs, ps[..|ps| - 1]);
      TotalLikesOfViews(ls, cs, ps[..|ps| - 1]);
    }
  }

  lemma {:induction false} LikeTotalConcat(ls: seq<Like>, a: seq<Post>, b: seq<Post>)
    ensures LikeTotal(ls, a + b) == LikeTotal(ls, a) + LikeTotal(ls, b)
    decreases |b|
  {
    if b == [] {
      assert a + b == a;
    } else {
      assert (a + b)[..|a + b| - 1] == a + b[..|b| - 1];
      LikeTotalConcat(ls, a, b[..|b| - 1]);
    }
  }

  lemma MultisetRemoveAt(t: seq<Post>, k: nat)
    requires k < |t|
    ensures multiset(t[..k] + t[k + 1..]) == multiset(t) - multiset{t[k]}
  {
    assert t == t[..k] + [t[k]] + t[k + 1..];
  }

  lemma LikeTotalRemoveAt(ls: seq<Like>, t: seq<Post>, k: nat)
    requires k < |t|
    ensures LikeTotal(ls, t) == LikeTotal(ls, t[..k] + t[k + 1..]) + |LikesOn(ls, t[k].id)|
  {
    assert t == t[..k] + ([t[k]] + t[k + 1..]);
    LikeTotalConcat(ls, t[..k], [t[k]] + t[k + 1..]);
    LikeTotalConcat(ls, [t[k]], t[k + 1..]);
    LikeTotalConcat(ls, t[..k], t[k + 1..]);
    assert [t[k]][..0] == [];
  }

  /** The like total does not depend on the order of the posts. */
  lemma {:induction false} LikeTotalPermutation(ls: seq<Like>, s: seq<Post>, t: seq<Post>)
    requires multiset(s) == multiset(t)
    ensures LikeTotal(ls, s) == LikeTotal(ls, t)
    decreases |s|
  {
    if s == [] {
      assert |t| == |multiset(t)| == 0;
    } else {
      var x := s[|s| - 1];
      var s' := s[..|s| - 1];
      assert s == s' + [x];
      assert multiset(s') == multiset(s) - multiset{x};
      assert x in multiset(t);
      var k :| 0 <= k < |t| && t[k] == x;
      MultisetRemoveAt(t, k);
      LikeTotalPermutation(ls, s', t[..k] + t[k + 1..]);
      LikeTotalRemoveAt(ls, t, k);
    }
  }

  /** Likes on the posts of `A + {k}` split into those on `A` and those on `k` when `k` is not in `A`. */
  lemma {:induction false} LikesOnPostsSplit(ls: seq<Like>, ids: set<string>, k: string)
    requires k !in ids
    ensures |LikesOnPosts(ls, ids + {k})| == |LikesOnPosts(ls, ids)| + |LikesOn(ls, k)|
  {
    if ls != [] {
      LikesOnPostsSplit(ls[1..], ids, k);
    }
  }

  /** With distinct post ids, the like total equals the number of like rows on those posts. */
  lemma {:induction false} LikeTotalCountsLikeRows(ls: seq<Like>, ps: seq<Post>)
    requires DistinctPostIds(ps)
    ensures LikeTotal(ls, ps) == |LikesOnPosts(ls, PostIds(ps))|
  {
    if ps == [] {
      assert PostIds(ps) == {};
      FilterKeepsNone(ls, (l: Like) => l.postId in PostIds(ps));
    } else {
      var init, last := ps[..|ps| - 1], ps[|ps| - 1];
      assert ps == init + [last];
      assert PostIds(ps) == PostIds(init) + {last.id};
      assert last.id !in PostIds(init);
      LikeTotalCountsLikeRows(ls, init);
      LikesOnPostsSplit(ls, PostIds(init), last.id);
    }
  }

  /** Filtering a table keeps its post ids distinct. */
  lemma {:induction false} PostsByUsersDistinct(ps: seq<Post>, ids: set<string>)
    requires DistinctPostIds(ps)
    ensures DistinctPostIds(PostsByUsers(ps, ids))
  {
    if ps != [] {
      PostsByUsersDistinct(ps[1..], ids);
      var rest := PostsByUsers(ps[1..], ids);
      assert forall y :: y in rest ==> y in ps[1..];
      assert forall y :: y in ps[1..] ==> y.id != ps[0].id;
    }
  }

  function PostsOf(vs: seq<PostView>): (ps: seq<Post>)
    ensures |ps| == |vs| && forall i :: 0 <= i < |vs| ==> ps[i] == vs[i].post
  {
    seq(|vs|, i requires 0 <= i < |vs| => vs[i].post)
  }

  /** `vs` is what the post query returns for the rows `rows`: each of them once, newest
      first, with its own likes and comments nested. */
  predicate Listing(vs: seq<PostView>, ls: seq<Like>, cs: seq<Comment>, rows: seq<Post>) {
    NewestFirst(PostsOf(vs)) && multiset(PostsOf(vs)) == multiset(rows) &&
    forall i :: 0 <= i < |vs| ==> vs[i] == ViewOf(ls, cs, vs[i].post)
  }

  /** The post query over the matching rows `rows`. */
  function Listed(ls: seq<Like>, cs: seq<Comment>, rows: seq<Post>): (vs: seq<PostView>)
    ensures Listing(vs, ls, cs, rows)
    ensures |vs| == |rows|
  {
    var sorted := SortNewestFirst(rows);
    var vs := ViewsOf(ls, cs, sorted);
    assert PostsOf(vs) == sorted;
    vs
  }

  /** The total of the nested like lists of a listing counts each listed post's likes once,
      and with distinct post ids it is the number of like rows on those posts. */
  lemma ListedTotalLikes(ls: seq<Like>, cs: seq<Comment>, rows: seq<Post>)
    ensures TotalLikes(Listed(ls, cs, rows)) == LikeTotal(ls, rows)
    ensures DistinctPostIds(rows) ==> TotalLikes(Listed(ls, cs, rows)) == |LikesOnPosts(ls, PostIds(rows))|
  {
    var sorted := SortNewestFirst(rows);
    TotalLikesOfViews(ls, cs, sorted);
    LikeTotalPermutation(ls, sorted, rows);
    if DistinctPostIds(rows) {
      LikeTotalCountsLikeRows(ls, rows);
    }
  }
}
