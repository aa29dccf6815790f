/**
 * The notice feed of `GET /user/notice`.
 *
 * From the actor's edge lists, the first fifteen posts of the post collection
 * and the actor's own posts (each with its comments, each comment with its
 * replies) the handler builds four lists:
 *  - `postData`: those of the fifteen posts whose author the actor follows;
 *  - `followerData`: the actor's followers, newest first;
 *  - `commentsData`: the comments of the LAST own post (in fetch order) that has
 *    any, newest first, without the actor's own comments;
 *  - `repliesData`: the replies of the LAST comment that has any, visiting the
 *    posts in fetch order and each post's comments newest first (the comment
 *    array is sorted in place before it is walked), newest first, without the
 *    actor's own replies.
 * `GetUserNotice` walks the posts as the handler's `forEach` loops do and is
 * proved equal to `NoticeOf`; the lemmas below state what `NoticeOf` means.
 */
module Notice {
  import opened Errors
  import opened Users
  import opened Ordering

  /** A post as the feed fetches it: id, author and creation time. */
  datatype PostSummary = PostSummary(id: Id, user: Id, createdAt: int)

  datatype Reply = Reply(id: Id, user: Id, createdAt: int)

  datatype Comment = Comment(id: Id, user: Id, createdAt: int, replies: seq<Reply>)

  /** One of the actor's own posts with its comments. */
  datatype OwnPost = OwnPost(id: Id, comments: seq<Comment>)

  datatype Notice = Notice(
    postData: seq<PostSummary>,
    followerData: seq<Edge>,
    commentsData: seq<Comment>,
    repliesData: seq<Reply>)

  /** How many posts, from the start of the collection, the feed looks at. */
  const RecentPostLimit: nat := 15

  function EdgeTime(e: Edge): int { e.createdAt }
  function CommentTime(c: Comment): int { c.createdAt }
  function ReplyTime(r: Reply): int { r.createdAt }
  function CommentAuthor(c: Comment): Id { c.user }
  function ReplyAuthor(r: Reply): Id { r.user }

  /** The first `RecentPostLimit` posts of the collection, in the order the store returns them. */
  function RecentPosts(all: seq<PostSummary>): (r: seq<PostSummary>)
    ensures |r| == if |all| < RecentPostLimit then |all| else RecentPostLimit
    ensures r == all[..|r|]
  {
    all[..if |all| < RecentPostLimit then |all| else RecentPostLimit]
  }

  /** The posts whose author has an entry in `followings`, in their original order. */
  function FollowedPosts(posts: seq<PostSummary>, followings: seq<Edge>): (r: seq<PostSummary>)
    ensures |r| <= |posts|
    ensures forall p :: p in r <==> p in posts && HasUser(followings, p.user)
  {
    if posts == [] then
      []
    else
      assert posts == [posts[0]] + posts[1..];
      (if HasUser(followings, posts[0].user) then [posts[0]] else []) + FollowedPosts(posts[1..], followings)
  }

  /** The filter distributes over concatenation, so it keeps the fetch order. */
  lemma {:induction false} FollowedPostsAppend(a: seq<PostSummary>, b: seq<PostSummary>, followings: seq<Edge>)
    ensures FollowedPosts(a + b, followings) == FollowedPosts(a, followings) + FollowedPosts(b, followings)
  {
    if a == [] {
      assert a + b == b;
    } else {
      assert (a + b)[0] == a[0] && (a + b)[1..] == a[1..] + b;
      FollowedPostsAppend(a[1..], b, followings);
    }
  }

  /** The last non-empty list of `lists`, or [] when all are empty: what a last-wins overwrite leaves. */
  function LastNonEmpty<T>(lists: seq<seq<T>>): (r: seq<T>)
    ensures r == [] || r in lists
  {
    if lists == [] then []
    else if lists[|lists| - 1] != [] then lists[|lists| - 1]
    else LastNonEmpty(lists[..|lists| - 1])
  }

  /** If every list is empty, nothing is left. */
  lemma {:induction false} LastNonEmptyOfEmpties<T>(lists: seq<seq<T>>)
    requires forall k :: 0 <= k < |lists| ==> lists[k] == []
    ensures LastNonEmpty(lists) == []
  {
    if lists != [] {
      LastNonEmptyOfEmpties(lists[..|lists| - 1]);
    }
  }

  /** The last-wins result is empty exactly when every list is. */
  lemma {:induction false} LastNonEmptyIsEmptyIff<T>(lists: seq<seq<T>>)
    ensures LastNonEmpty(lists) == [] <==> forall k :: 0 <= k < |lists| ==> lists[k] == []
  {
    if lists != [] && lists[|lists| - 1] == [] {
      var init := lists[..|lists| - 1];
      LastNonEmptyIsEmptyIff(init);
      assert forall k :: 0 <= k < |init| ==> init[k] == lists[k];
    }
  }

  /** The list at `k` wins when it is non-empty and every later one is empty. */
  lemma {:induction false} LastNonEmptyAt<T>(lists: seq<seq<T>>, k: nat)
    requires k < |lists| && lists[k] != []
    requires forall k' :: k < k' < |lists| ==> lists[k'] == []
    ensures LastNonEmpty(lists) == lists[k]
  {
    if k < |lists| - 1 {
      LastNonEmptyAt(lists[..|lists| - 1], k);
    }
  }

  lemma {:induction false} LastNonEmptyAppend<T>(a: seq<seq<T>>, b: seq<seq<T>>)
    ensures LastNonEmpty(a + b) == if LastNonEmpty(b) != [] then LastNonEmpty(b) else LastNonEmpty(a)
  {
    if b == [] {
      assert a + b == a;
    } else {
      var init := b[..|b| - 1];
      assert (a + b)[..|a + b| - 1] == a + init;
      LastNonEmptyAppend(a, init);
    }
  }

  /** The comment list of each post, in fetch order. */
  function CommentLists(posts: seq<OwnPost>): (r: seq<seq<Comment>>)
    ensures |r| == |posts| && forall k :: 0 <= k < |posts| ==> r[k] == posts[k].comments
  {
    if posts == [] then [] else CommentLists(posts[..|posts| - 1]) + [posts[|posts| - 1].comments]
  }

  /** A post's comments in the order the handler walks them: newest first. */
  function SortedComments(p: OwnPost): (r: seq<Comment>)
    ensures multiset(r) == multiset(p.comments)
    ensures NewestFirst(r, CommentTime)
  {
    SortNewestFirst(p.comments, CommentTime)
  }

  /** The reply list of each comment, in order. */
  function ReplyListsOf(comments: seq<Comment>): (r: seq<seq<Reply>>)
    ensures |r| == |comments| && forall j :: 0 <= j < |comments| ==> r[j] == comments[j].replies
  {
    if comments == [] then [] else ReplyListsOf(comments[..|comments| - 1]) + [comments[|comments| - 1].replies]
  }

  /** Every comment's reply list, post by post, each post's comments newest first. */
  function ReplyLists(posts: seq<OwnPost>): (r: seq<seq<Reply>>)
    ensures forall rs :: rs in r ==> exists k, c :: 0 <= k < |posts| && c in posts[k].comments && rs == c.replies
  {
    if posts == [] then
      []
    else
      var init, last := posts[..|posts| - 1], posts[|posts| - 1];
      var r := ReplyLists(init) + ReplyListsOf(SortedComments(last));
      ReplyListsFromPosts(ReplyLists(init), init, last);
      assert init + [last] == posts;
      r
  }

  /** Each reply list after appending one post's lists belongs to a comment of some post. */
  lemma ReplyListsFromPosts(front: seq<seq<Reply>>, init: seq<OwnPost>, last: OwnPost)
    requires forall rs :: rs in front ==> exists k, c :: 0 <= k < |init| && c in init[k].comments && rs == c.replies
    ensures var posts := init + [last];
            forall rs :: rs in front + ReplyListsOf(SortedComments(last)) ==>
              exists k, c :: 0 <= k < |posts| && c in posts[k].comments && rs == c.replies
  {
    var posts := init + [last];
    var sorted := SortedComments(last);
    var back := ReplyListsOf(sorted);
    forall rs | rs in front + back
      ensures exists k, c :: 0 <= k < |posts| && c in posts[k].comments && rs == c.replies
    {
      if rs in front {
        var k, c :| 0 <= k < |init| && c in init[k].comments && rs == c.replies;
        assert posts[k] == init[k];
      } else {
        var j :| 0 <= j < |back| && back[j] == rs;
        assert sorted[j] in multiset(last.comments);
        assert posts[|init|] == last;
      }
    }
  }

  /**
   * `getUserNotice` as a function of what the handler fetches. A missing actor id is a
   * field error; an id with no document makes the handler read `followingLists[0]` of an
   * empty result, a runtime fault.
   */
  function NoticeOf(users: map<Id, User>, actor: Id, allPosts: seq<PostSummary>, ownPosts: seq<OwnPost>): (r: Result<Notice>)
    ensures r == Err(FieldFailed) <==> actor == ""
    ensures r == Err(RuntimeFault) <==> actor != "" && actor !in users
    ensures r.Ok? <==> actor != "" && actor in users
    ensures r.Ok? ==>
              && |r.value.postData| <= RecentPostLimit
              && (forall p :: p in r.value.postData <==>
                                p in RecentPosts(allPosts) && HasUser(users[actor].followings, p.user))
              && multiset(r.value.followerData) == multiset(users[actor].followers)
              && NewestFirst(r.value.followerData, EdgeTime)
              && NewestFirst(r.value.commentsData, CommentTime)
              && NewestFirst(r.value.repliesData, ReplyTime)
              && (forall c :: c in r.value.commentsData ==> c.user != actor)
              && (forall x :: x in r.value.repliesData ==> x.user != actor)
  {
    if actor == "" then Err(FieldFailed)
    else if actor !in users then Err(RuntimeFault)
    else
      var comments := SortNewestFirst(LastNonEmpty(CommentLists(ownPosts)), CommentTime);
      var replies := SortNewestFirst(LastNonEmpty(ReplyLists(ownPosts)), ReplyTime);
      WithoutAuthorKeepsNewestFirst(comments, CommentAuthor, actor, CommentTime);
      WithoutAuthorKeepsNewestFirst(replies, ReplyAuthor, actor, ReplyTime);
      Ok(Notice(
        FollowedPosts(RecentPosts(allPosts), users[actor].followings),
        SortNewestFirst(users[actor].followers, EdgeTime),
        WithoutAuthor(comments, CommentAuthor, actor),
        WithoutAuthor(replies, ReplyAuthor, actor)))
  }

  lemma CommentListsStep(posts: seq<OwnPost>, i: nat)
    requires i < |posts|
    ensures LastNonEmpty(CommentLists(posts[..i + 1]))
         == if posts[i].comments != [] then posts[i].comments else LastNonEmpty(CommentLists(posts[..i]))
  {
    assert posts[..i + 1][..i] == posts[..i];
  }

  lemma ReplyListsStep(posts: seq<OwnPost>, i: nat)
    requires i < |posts|
    ensures ReplyLists(posts[..i + 1]) == ReplyLists(posts[..i]) + ReplyListsOf(SortedComments(posts[i]))
  {
    assert posts[..i + 1][..i] == posts[..i];
  }

  lemma ReplyListsOfStep(sorted: seq<Comment>, j: nat)
    requires j < |sorted|
    ensures LastNonEmpty(ReplyListsOf(sorted[..j + 1]))
         == if sorted[j].replies != [] then sorted[j].replies else LastNonEmpty(ReplyListsOf(sorted[..j]))
  {
    assert sorted[..j + 1][..j] == sorted[..j];
  }

  /**
   * The inner `forEach` of `getUserNotice`: walking one post's comments, every comment
   * with replies overwrites `current` with those replies, newest first.
   */
  method ScanReplies(comments: seq<Comment>, current: seq<Reply>) returns (latest: seq<Reply>)
    ensures latest == if LastNonEmpty(ReplyListsOf(comments)) != [] then
                        SortNewestFirst(LastNonEmpty(ReplyListsOf(comments)), ReplyTime)
                      else current
  {
    latest := current;
    var j := 0;
    while j < |comments|
      invariant 0 <= j <= |comments|
      invariant latest == if LastNonEmpty(ReplyListsOf(comments[..j])) != [] then
                            SortNewestFirst(LastNonEmpty(ReplyListsOf(comments[..j])), ReplyTime)
                          else current
    {
      ReplyListsOfStep(comments, j);
      if |comments[j].replies| > 0 {
        latest := SortNewestFirst(comments[j].replies, ReplyTime);
      }
      j := j + 1;
    }
    assert comments[..|comments|] == comments;
  }

  /**
   * `getUserNotice`: the two `forEach` loops overwrite `commentsData` and `repliesData`
   * whenever they meet a non-empty list, then the actor's own entries are filtered out.
   */
  method GetUserNotice(users: map<Id, User>, actor: Id, allPosts: seq<PostSummary>, ownPosts: seq<OwnPost>)
    returns (r: Result<Notice>)
    ensures r == NoticeOf(users, actor, allPosts, ownPosts)
  {
    if actor == "" {
      return Err(FieldFailed);
    }
    if actor !in users {
      return Err(RuntimeFault);
    }
    var newPosts := RecentPosts(allPosts);
    var postData := FollowedPosts(newPosts, users[actor].followings);
    var followerData := SortNewestFirst(users[actor].followers, EdgeTime);
    var commentsData: seq<Comment> := [];
    var repliesData: seq<Reply> := [];
    var i := 0;
    while i < |ownPosts|
      invariant 0 <= i <= |ownPosts|
      invariant commentsData == SortNewestFirst(LastNonEmpty(CommentLists(ownPosts[..i])), CommentTime)
      invariant repliesData == SortNewestFirst(LastNonEmpty(ReplyLists(ownPosts[..i])), ReplyTime)
    {
      var post := ownPosts[i];
      CommentListsStep(ownPosts, i);
      ReplyListsStep(ownPosts, i);
      if |post.comments| > 0 {
        var sorted := SortNewestFirst(post.comments, CommentTime);
        commentsData := sorted;
        repliesData := ScanReplies(sorted, repliesData);
        LastNonEmptyAppend(ReplyLists(ownPosts[..i]), ReplyListsOf(sorted));
      } else {
        assert SortedComments(post) == [];
        assert ReplyLists(ownPosts[..i]) + ReplyListsOf([]) == ReplyLists(ownPosts[..i]);
      }
      i := i + 1;
    }
    assert ownPosts[..|ownPosts|] == ownPosts;
    commentsData := WithoutAuthor(commentsData, CommentAuthor, actor);
    repliesData := WithoutAuthor(repliesData, ReplyAuthor, actor);
    r := Ok(Notice(postData, followerData, commentsData, repliesData));
  }

  /** Post `k` is the last of `posts` that has comments. */
  ghost predicate LastCommented(posts: seq<OwnPost>, k: int) {
    && 0 <= k < |posts| && posts[k].comments != []
    && forall k' :: k < k' < |posts| ==> posts[k'].comments == []
  }

  /**
   * Comment `j` (in newest-first order) of post `k` is the last comment with replies the
   * handler meets: later comments of that post and every comment of later posts have none.
   */
  ghost predicate LastReplied(posts: seq<OwnPost>, k: int, j: int) {
    && 0 <= k < |posts|
    && 0 <= j < |SortedComments(posts[k])|
    && SortedComments(posts[k])[j].replies != []
    && (forall j' :: j < j' < |SortedComments(posts[k])| ==> SortedComments(posts[k])[j'].replies == [])
    && (forall k', c :: k < k' < |posts| && c in posts[k'].comments ==> c.replies == [])
  }

  /** A post none of whose comments has replies contributes no reply list. */
  lemma NoRepliesInPost(p: OwnPost)
    requires forall c :: c in p.comments ==> c.replies == []
    ensures LastNonEmpty(ReplyListsOf(SortedComments(p))) == []
  {
    var sorted := SortedComments(p);
    var lists := ReplyListsOf(sorted);
    forall j | 0 <= j < |lists| ensures lists[j] == [] {
      assert sorted[j] in multiset(sorted);
    }
    LastNonEmptyOfEmpties(lists);
  }

  /** When no comment of any post has replies, the last-wins walk keeps nothing. */
  lemma NoRepliesAnywhere(posts: seq<OwnPost>)
    requires forall k, c :: 0 <= k < |posts| && c in posts[k].comments ==> c.replies == []
    ensures LastNonEmpty(ReplyLists(posts)) == []
  {
    var lists := ReplyLists(posts);
    forall i | 0 <= i < |lists| ensures lists[i] == [] {
      assert lists[i] in lists;
    }
  }

  /** The reply list the last-wins walk keeps, stated on the posts themselves. */
  lemma {:induction false} ReplyListsLastWins(posts: seq<OwnPost>)
    ensures forall k, j :: LastReplied(posts, k, j) ==>
              LastNonEmpty(ReplyLists(posts)) == SortedComments(posts[k])[j].replies
  {
    if posts != [] {
      var n := |posts| - 1;
      var init, last := posts[..n], posts[n];
      ReplyListsLastWins(init);
      LastNonEmptyAppend(ReplyLists(init), ReplyListsOf(SortedComments(last)));
      forall k, j | LastReplied(posts, k, j)
        ensures LastNonEmpty(ReplyLists(posts)) == SortedComments(posts[k])[j].replies
      {
        if k == n {
          LastNonEmptyAt(ReplyListsOf(SortedComments(last)), j);
        } else {
          assert forall c :: c in last.comments ==> c.replies == [];
          NoRepliesInPost(last);
          assert LastReplied(init, k, j) by { assert init[k] == posts[k]; }
        }
      }
    }
  }

  /**
   * `commentsData` holds the comments of the last own post that has any, newest first,
   * minus the actor's own; it is empty when no own post has comments.
   */
  lemma NoticeCommentsLastWins(users: map<Id, User>, actor: Id, allPosts: seq<PostSummary>, ownPosts: seq<OwnPost>)
    requires NoticeOf(users, actor, allPosts, ownPosts).Ok?
    ensures var c := NoticeOf(users, actor, allPosts, ownPosts).value.commentsData;
            && ((forall k :: 0 <= k < |ownPosts| ==> ownPosts[k].comments == []) ==> c == [])
            && forall k :: LastCommented(ownPosts, k) ==>
                 c == WithoutAuthor(SortNewestFirst(ownPosts[k].comments, CommentTime), CommentAuthor, actor)
  {
    var lists := CommentLists(ownPosts);
    if forall k :: 0 <= k < |ownPosts| ==> ownPosts[k].comments == [] {
      LastNonEmptyOfEmpties(lists);
    }
    forall k | LastCommented(ownPosts, k) ensures LastNonEmpty(lists) == ownPosts[k].comments {
      LastNonEmptyAt(lists, k);
    }
  }

  /**
   * `repliesData` holds the replies of the last comment with replies met by the walk
   * (posts in fetch order, comments newest first), newest first, minus the actor's own;
   * it is empty when no comment of an own post has replies.
   */
  lemma NoticeRepliesLastWins(users: map<Id, User>, actor: Id, allPosts: seq<PostSummary>, ownPosts: seq<OwnPost>)
    requires NoticeOf(users, actor, allPosts, ownPosts).Ok?
    ensures var r := NoticeOf(users, actor, allPosts, ownPosts).value.repliesData;
            && ((forall k, c :: 0 <= k < |ownPosts| && c in ownPosts[k].comments ==> c.replies == []) ==> r == [])
            && forall k, j :: LastReplied(ownPosts, k, j) ==>
                 r == WithoutAuthor(SortNewestFirst(SortedComments(ownPosts[k])[j].replies, ReplyTime), ReplyAuthor, actor)
  {
    if forall k, c :: 0 <= k < |ownPosts| && c in ownPosts[k].comments ==> c.replies == [] {
      NoRepliesAnywhere(ownPosts);
    }
    ReplyListsLastWins(ownPosts);
  }
}
