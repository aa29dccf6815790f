/**
 * End-to-end behaviour across the follow toggle and the notice feed.
 */
module Scenarios {
  import opened Errors
  import opened Users
  import opened Follow
  import opened Notice

  /** A successful follow by `a` of `b` appends one entry to `a`'s followings and keeps every user. */
  lemma FollowAppendsToActor(users: map<Id, User>, a: Id, b: Id, t: int)
    requires a != "" && b != "" && a != b
    requires a in users && !HasUser(users[a].followings, b)
    ensures var after := Toggle(users, FollowRequest(b, "follow", a), a, t).users;
            && after.Keys == users.Keys
            && after[a].followings == users[a].followings + [Edge(b, t)]
  {
    var req := FollowRequest(b, "follow", a);
    assert Toggle(users, req, a, t).result.Ok?;
    FollowAddsOneEntry(users, req, a, t);
  }

  /** With followings for `b` and `c` only, posts by `b`, `d` and `e` feed through as `b`'s alone. */
  lemma FeedOfTwoFollowings(users: map<Id, User>, a: Id, b: Id, c: Id, d: Id, e: Id,
                            t1: int, t2: int, pb: PostSummary, pd: PostSummary, pe: PostSummary,
                            own: seq<OwnPost>)
    requires a != "" && a in users && users[a].followings == [Edge(b, t1), Edge(c, t2)]
    requires pb.user == b && pd.user == d && pe.user == e
    requires d != b && d != c && e != b && e != c
    ensures NoticeOf(users, a, [pb, pd, pe], own).Ok?
    ensures NoticeOf(users, a, [pb, pd, pe], own).value.postData == [pb]
  {
    var fs := users[a].followings;
    assert HasUser(fs, b) by { assert fs[0].user == b; }
    assert !HasUser(fs, d) && !HasUser(fs, e);
    var posts := [pb, pd, pe];
    assert RecentPosts(posts) == posts;
    assert posts == [pb] + [pd] + [pe];
    FollowedPostsAppend([pb] + [pd], [pe], fs);
    FollowedPostsAppend([pb], [pd], fs);
    assert FollowedPosts([pb], fs) == [pb] by { assert [pb][1..] == []; }
    assert FollowedPosts([pd], fs) == [] by { assert [pd][1..] == []; }
    assert FollowedPosts([pe], fs) == [] by { assert [pe][1..] == []; }
  }

  /**
   * A follows B, then C; of recent posts by B, D and E, A's feed shows only B's post.
   */
  lemma FeedShowsOnlyFollowedAuthors(users: map<Id, User>, a: Id, b: Id, c: Id, d: Id, e: Id,
                                     t1: int, t2: int, pb: PostSummary, pd: PostSummary, pe: PostSummary,
                                     own: seq<OwnPost>)
    requires a != "" && b != "" && c != ""
    requires a in users && users[a].followings == []
    requires a != b && a != c && b != c
    requires pb.user == b && pd.user == d && pe.user == e
    requires d != b && d != c && e != b && e != c
    ensures var u1 := Toggle(users, FollowRequest(b, "follow", a), a, t1).users;
            var u2 := Toggle(u1, FollowRequest(c, "follow", a), a, t2).users;
            && NoticeOf(u2, a, [pb, pd, pe], own).Ok?
            && NoticeOf(u2, a, [pb, pd, pe], own).value.postData == [pb]
  {
    var u1 := Toggle(users, FollowRequest(b, "follow", a), a, t1).users;
    FollowAppendsToActor(users, a, b, t1);
    assert !HasUser(u1[a].followings, c) by { assert u1[a].followings == [Edge(b, t1)]; }
    var u2 := Toggle(u1, FollowRequest(c, "follow", a), a, t2).users;
    FollowAppendsToActor(u1, a, c, t2);
    FeedOfTwoFollowings(u2, a, b, c, d, e, t1, t2, pb, pd, pe, own);
  }
}
