# Space Room API: follow graph, notice feed, profile and post rules

A Dafny model of the request-handling core of the Space Room social backend
(an Express/Mongoose JSON API):

- **Follow graph** (`controllers/follow.js`). Each user document holds two edge
  lists, `followings` and `followers`, of `{ user, createdAt }` entries.
  `PATCH /follows` either follows or unfollows. Each is two separate
  conditional writes: first the actor's `followings`, then the target's
  `followers`. `GET /follows_list` reads one user's two lists.
  - Modules `Users` (edge lists and `$pull`) and `Follow` (the toggle as a
    function of the store) model this.
  - The class `Store.UserStore` performs the writes one at a time on a
    mutable store and is proved equal to `Follow.Toggle`.
- **Notice feed** (`getUserNotice` in `controllers/user.js`). It builds four
  lists:
  - the followed authors' posts among the first fifteen of the post collection;
  - the actor's followers, newest first;
  - the comments of the last own post that has any, without the actor's own
    comments;
  - the replies of the last comment that has any, without the actor's own
    replies.

  Module `Notice` gives the feed as the function `NoticeOf`. `GetUserNotice`
  runs the handler's nested `forEach` loops and is proved equal to
  `NoticeOf`. Module `Ordering` models the stable newest-first sort and the
  author filter.
- **Profile update** (`updateUserInfo` in `controllers/user.js`). The name
  goes through `String.prototype.trim`, then the UTF-16 length rule, then the
  patch and the store write. Modules `Profile` and `Store` model this.
- **Post rules** (`controllers/post.js`):
  - the sort key, comment order, page size and offset of the two listing
    handlers;
  - the required fields of `createPost`;
  - the required fields, existence check and patch of `updatePost`.

  Module `Posts` models these.
- Module `Scenarios` combines the toggle and the feed: A follows B, then C,
  and A's feed then shows only B's post.

Conventions:
- Ids and strings are `seq<char>`.
- Query fields and required body fields are falsy to the handlers whether absent or
  empty, so they are modelled as strings, with `""` for both. The exceptions are
  modelled with `Option`:
  - the body fields of `updateUserInfo`: an absent `name` throws, while `""` fails
    the length rule, and `avatar: ""` is written, because only an absent avatar
    is skipped;
  - `images`, which counts whenever supplied;
  - the page `p`, where empty and absent give different offsets (`Posts.PageParam`).
- Store timestamps are integers supplied by the caller (`now`).
- A `TypeError` that the handler would throw is `Err(RuntimeFault)`.

## Model

| member | source | states |
|---|---|---|
| Users.Pull | controllers/follow.js:93-95 | `$pull`: the result holds an entry iff the list had it and it is for another user. No entry for the pulled user is left, and nothing changes when there was none |
| Users.PullAppend | controllers/follow.js:102-104 | the pull works entry by entry: pulling from a concatenation is concatenating the pulls. With `Pull`'s own contract, this keeps the other entries in their order and with their multiplicity |
| Users.HasUserIffMember | controllers/follow.js:69 | the `'followings.user'` match holds iff some entry names the user |
| Users.PullKeepsOthers | controllers/follow.js:102-104 | pulling one user does not change whether any other user is listed |
| Users.PullKeepsUnique | controllers/follow.js:93-95 | a pull keeps a duplicate-free edge list duplicate-free |
| Users.AppendedHasUser | controllers/follow.js:72-74 | after appending an entry, a user is listed iff they were listed before or the entry names them |
| Users.AppendKeepsUnique | controllers/follow.js:66-77 | appending an entry for an absent user keeps the list duplicate-free |
| Users.PullAppended | controllers/follow.js:90-106 | pulling the entry a follow just appended gives back the list as it was |
| Follow.ActingUser | controllers/follow.js:44 | the actor is `target_id` when given, otherwise the authenticated user |
| Follow.Toggle | controllers/follow.js:42-144 | the store keeps its keys. Only the actor and the target change, and only in their edge lists. A missing field gives a field error, and a self-follow gives a self-follow error (each iff). The result is Ok iff the first write matched. Otherwise a request that passed the checks reports "already following" for a follow and "already unfollowed" otherwise. The reported record is the actor's document after the first write |
| Follow.AddFollowing | controllers/follow.js:66-77 | afterwards the actor (if it has a document) follows the target. Whom else it follows is unchanged, at most one entry is added, and no other field or user changes |
| Follow.AddFollower | controllers/follow.js:78-88 | afterwards the target (if it has a document) lists the actor as a follower. Every other follower is unchanged, at most one entry is added, and no other field or user changes |
| Follow.PullFollowing | controllers/follow.js:90-98 | afterwards the actor (if it has a document) does not follow the target. Its followings are the pull of the target, whom else it follows is unchanged, and no other user changes |
| Follow.PullFollower | controllers/follow.js:99-106 | afterwards the target (if it has a document) does not list the actor. Its followers are the pull of the actor, every other follower is unchanged, and no other user changes |
| Follow.OtherModesUnfollow | controllers/follow.js:45 | any non-empty `follow_mode` other than "follow" behaves exactly as "unfollow" |
| Follow.FollowsAfterToggle | controllers/follow.js:64-107 | for the (actor, target) pair of a toggle that passes the checks, the actor follows the target afterwards iff the mode is follow and the actor exists; for every other pair the followings side is unchanged |
| Follow.FollowedByAfterToggle | controllers/follow.js:78-106 | for the same pair, the target lists the actor as a follower afterwards iff the mode is follow and the target exists; every other pair is unchanged |
| Follow.ToggleKeepsSymmetric | controllers/follow.js:64-107 | when actor and target both exist, a toggle keeps "b in a's followings iff a in b's followers" |
| Follow.FollowOfMissingUserLeavesOneSidedEdge | controllers/follow.js:66-88 | following a target with no document still adds it to the actor's followings, with no matching follower entry |
| Follow.ToggleKeepsNoSelfFollows | controllers/follow.js:52-62 | the self-follow check keeps "nobody follows themselves" invariant |
| Follow.ToggleKeepsNoDuplicateEdges | controllers/follow.js:66-106 | the `$ne` filters and `$pull` keep every edge list free of duplicate users |
| Follow.FollowAddsOneEntry | controllers/follow.js:66-77 | a successful follow appends exactly one entry, `{ target, now }`, and it is the target's only entry |
| Follow.FollowWhenFollowingIsRejected | controllers/follow.js:109-120 | following someone already followed reports "already following" and leaves the actor untouched |
| Follow.FollowAddsFollowerIfAbsent | controllers/follow.js:78-88 | the target's followers gain `{ actor, now }` exactly when the actor is absent, whatever the first write did |
| Follow.FollowIsIdempotent | controllers/follow.js:66-120 | a second identical follow reports "already following" and leaves the whole store unchanged |
| Follow.UnfollowPullsBothSides | controllers/follow.js:89-107 | unfollow sets the actor's followings to their pull of the target, and the target's followers to their pull of the actor. So it removes all target entries and all actor entries and keeps every other entry in order. The other list of each user is unchanged. It errs iff the actor has no document. A missing edge still reports success |
| Follow.FollowThenUnfollowRestores | controllers/follow.js:64-107 | between existing users with no edge, follow then unfollow restores the store exactly |
| Follow.FollowsList | controllers/follow.js:11-37 | a missing id gives a field error, and an id with no document a runtime fault. Otherwise the two lists name exactly the users followed and following |
| Follow.FollowShowsInBothLists | controllers/follow.js:11-37 | after a follow between existing users, each side's list shows the other |
| Store.UserStore.ToggleFollows | controllers/follow.js:42-144 | the step-by-step writes leave the store and result that `Follow.Toggle` gives |
| Store.UserStore.UpdateUserInfo | controllers/user.js:181-216 | a patch error is reported and nothing is written. An unknown id reports "not found" and nothing is written. Otherwise only that user's name and avatar change, and the new document is reported |
| Profile.Trim | controllers/user.js:185 | the result is a slice of the input. Everything cut off is ECMAScript white space or a line terminator, and the result neither starts nor ends with one |
| Profile.TrimIsIdempotent | controllers/user.js:185 | trimming a trimmed name changes nothing |
| Profile.BlankTrimsToEmpty | controllers/user.js:185-189 | a name of white space only trims to "" and so fails the length rule |
| Profile.Utf16Length | controllers/user.js:189 | JavaScript `length` lies between the number of code points and twice that |
| Profile.LongEnoughIff | controllers/user.js:189 | `length >= 2` iff there are two code points, or one outside the Basic Multilingual Plane |
| Profile.ProfilePatchFor | controllers/user.js:181-205 | a missing name is a runtime fault, even before the id check. A missing id is a field error, and a trimmed name shorter than 2 fails (each iff). A request with a name, an id and a trimmed name of length at least 2 succeeds (iff). On success the patch holds the trimmed name, and the avatar iff one was supplied |
| Profile.ApplyProfile | controllers/user.js:207-210 | the update sets the name, sets the avatar only when patched, and keeps both edge lists |
| Ordering.InsertNewestFirst | controllers/user.js:51-53 | insertion adds exactly the inserted element, as a multiset |
| Ordering.InsertKeepsNewestFirst | controllers/user.js:51-53 | inserting into a newest-first list keeps it newest first |
| Ordering.SortNewestFirst | controllers/user.js:51-53 | the sort with comparator `b.createdAt - a.createdAt` returns a permutation, newest first |
| Ordering.InsertKeepsKeyOrder | controllers/user.js:58-60 | insertion keeps the relative order of elements with equal timestamps |
| Ordering.SortIsStable | controllers/user.js:63-65 | the sort is stable: elements with equal timestamps keep their order |
| Ordering.WithoutAuthor | controllers/user.js:70-71 | the filter keeps exactly the elements by other authors |
| Ordering.WithoutAuthorAppend | controllers/user.js:70-71 | filtering distributes over concatenation |
| Ordering.WithoutAuthorKeepsNewestFirst | controllers/user.js:70-71 | filtering a newest-first list leaves it newest first |
| Notice.RecentPosts | controllers/user.js:33 | the first fifteen posts (or all, if fewer) in store order |
| Notice.FollowedPosts | controllers/user.js:48-50 | keeps exactly the posts whose author has a followings entry |
| Notice.FollowedPostsAppend | controllers/user.js:48-50 | the filter distributes over concatenation, so the store order is kept |
| Notice.LastNonEmpty | controllers/user.js:54-69 | the last-wins overwrite leaves either nothing or one of the lists |
| Notice.LastNonEmptyIsEmptyIff | controllers/user.js:54-69 | the last-wins result is empty exactly when every list is |
| Notice.LastNonEmptyOfEmpties | controllers/user.js:54-69 | when no post has comments, the last-wins variable stays empty |
| Notice.LastNonEmptyAt | controllers/user.js:56-58 | the last-wins variable holds the last non-empty list |
| Notice.LastNonEmptyAppend | controllers/user.js:56-69 | last-wins over a concatenation is the later part's winner when it has one |
| Notice.CommentLists | controllers/user.js:56-57 | the comment list of each post, in order |
| Notice.SortedComments | controllers/user.js:58-60 | a post's comments, sorted in place before the replies are walked: a newest-first permutation |
| Notice.ReplyLists | controllers/user.js:56-67 | every reply list the walk meets is the reply list of a comment of one of the posts |
| Notice.NoRepliesAnywhere | controllers/user.js:54-67 | when no comment has replies, the replies variable stays empty |
| Notice.ReplyListsOf | controllers/user.js:61-62 | the reply list of each comment, in order |
| Notice.NoticeOf | controllers/user.js:11-83 | a missing actor id gives a field error, and an actor with no document a runtime fault (each iff). On success: `postData` has at most 15 posts, exactly the recent ones by followed authors. `followerData` is a newest-first permutation of the followers. `commentsData` and `repliesData` are newest first and free of the actor's own entries |
| Notice.ScanReplies | controllers/user.js:61-67 | the inner loop leaves the reply list of the last comment with replies, or the list it started with when none has any |
| Notice.GetUserNotice | controllers/user.js:11-83 | the handler's loops compute exactly `NoticeOf` |
| Notice.NoRepliesInPost | controllers/user.js:61-67 | a post whose comments have no replies contributes nothing to the replies |
| Notice.ReplyListsLastWins | controllers/user.js:56-69 | the replies come from the last comment with replies, visiting posts in store order and each post's comments newest first. |
| Notice.NoticeCommentsLastWins | controllers/user.js:56-60 | `commentsData` is exactly the comments of the last post with comments, newest first, minus the actor's, or is empty when no post has comments |
| Notice.NoticeRepliesLastWins | controllers/user.js:61-71 | `repliesData` holds exactly the replies of the last comment with replies, minus the actor's, or is empty |
| Posts.PostOrderFor | controllers/post.js:17 | "hot" sorts by the `likes` array descending, "old" by creation ascending, anything else by creation descending |
| Posts.CommentDirection | controllers/post.js:18 | comments sort ascending iff `cs` is "old", otherwise descending |
| Posts.PagingFor | controllers/post.js:19-20 | with a page number n, the limit is 8 and the offset is (n - 1) * 8, with no special case for page 1. Without a page number the limit is `l` or 0. The offset is minus the limit for an empty `p`, and not a number iff `p` is absent |
| Posts.NonNegativeOffsets | controllers/post.js:19-20 | the offset is a non-negative number iff the page is at least 1, or `p` is empty and there is no limit |
| Posts.ListingFor | controllers/post.js:15-20 | `getPosts`: the `likes` order iff `s` is "hot", oldest first iff `s` is "old", and newest first otherwise. Comments are ascending iff `cs` is "old", otherwise descending. A page n gives limit 8 and offset (n - 1) * 8. Otherwise the limit is `l` or 0, an empty page gives offset minus the limit, and the offset is missing iff there is no page |
| Posts.PageOffsets | controllers/post.js:19-20 | page 1 starts at offset 0, offsets are non-negative for pages >= 1, and each page starts where the previous one ends |
| Posts.UserListingFor | controllers/post.js:81-90 | a missing `user_id` is a field error. Otherwise the options are those of the global listing |
| Posts.Window | controllers/post.js:22-24 | skip then limit: the window is the slice starting at the offset, at most `limit` long (0 means no limit), and it reaches the end unless the limit cuts it |
| Posts.PostOnItsPage | controllers/post.js:19-24 | post i of the sorted listing is entry `i % 8` of page `i / 8 + 1` |
| Posts.CreatePost | controllers/post.js:173-192 | missing content or user is a field error and writes nothing (iff). Otherwise exactly one post is added, with the user, content, images and creation time |
| Posts.PostPatchFor | controllers/post.js:209-211 | the patch sets content iff it is non-empty, and images iff they were supplied (even an empty array) |
| Posts.ApplyPostPatch | controllers/post.js:212 | patched fields are replaced and owner and creation time are kept |
| Posts.UpdatePost | controllers/post.js:197-221 | a missing id, content or user is a field error. A missing post is "not found" (each iff). Both write nothing. A complete request for an existing post succeeds (iff). Otherwise only that post changes: new content, images replaced iff supplied, owner and creation time kept |
| Posts.UpdateIgnoresOwner | controllers/post.js:197-212 | any authenticated user can update a post they do not own |
| Scenarios.FollowAppendsToActor | controllers/follow.js:66-77 | a follow of an absent target appends one entry to the actor and keeps every user |
| Scenarios.FeedOfTwoFollowings | controllers/user.js:48-50 | with followings for B and C only, of posts by B, D and E the feed keeps B's alone |
| Scenarios.FeedShowsOnlyFollowedAuthors | controllers/user.js:48-50 | A follows B, then C; of recent posts by B, D and E, A's feed shows only B's post |

## Left out

- Mongoose and MongoDB I/O are left out: connections, `catchAsync`, the HTTP responses and route wiring. Each store is a Dafny map or sequence passed in. A failure of the store itself is not modelled.
- Populate projections (`select: 'name avatar'` and the like) are left out. The model keeps whole records. A populated reference that points at a deleted document (a `null` user) is not modelled.
- The race between the two writes of a toggle under concurrent requests, and an abort between them, are not modelled. The two writes run one after the other with nothing in between.
- Both `Date.now()` calls of a follow are the single parameter `now`.
- The post collection's own schema (`models/Post.js`) is not part of this model. The default for absent `images` is taken to be the empty list.
- The `q` search (`new RegExp(q)`) is left out, as is the `{ user: user_id, query }` filter shape of `getUserPosts`. The listing is modelled from sort, skip and limit onwards.
- A page is modelled as absent, empty, or the integer it converts to. A non-numeric page string, which gives `NaN`, is left out.
- `Posts.PagingFor` reports the offset without a page (`NaN * 0`) as no number and does not say what the store does with it.
- `Posts.Window` takes only non-negative offsets. The negative offsets `Posts.PagingFor` computes are identified by `Posts.NonNegativeOffsets`, and what the store does with them is not modelled. They come from a page of 0 or below, or an empty page with a limit.
- Ids are taken to be well-formed ObjectId strings. A malformed id (such as "abc") in `target_id`, `user_id` or `post_id` makes the store's ObjectId cast throw a CastError before any write. The model does not throw in that case: it treats such an id as one with no document, so a toggle may append an edge for it, and `Posts.UpdatePost` and `Store.UserStore.UpdateUserInfo` report "not found".
- `l` is taken to be a non-negative integer. A negative `l` is passed through to the store, and with an empty `p` it would give a positive offset. Neither case is modelled.
- `Posts.PostOrderFor`: the "hot" order is modelled only as a tag. The store sorts on the `likes` array, descending, which compares each array's largest element (the greatest liker id) rather than the number of likes, and that ordering is not modelled.
- Ids are taken in one canonical spelling, and the store is keyed by that same string. The self-follow check compares the id strings as sent, while the store matches ids after converting them to ObjectIds, which accepts upper-case hex. So a `user_id` written as the upper-case form of the actor's own id gets past the check and makes the user follow themselves. The model, and so `Follow.ToggleKeepsNoSelfFollows`, does not capture this case.
- Schema validators (`runValidators`) are left out.
- The in-place mutation of fetched arrays by `sort` is modelled by value. Aliasing between `data.comments` and `commentsData` is not modelled.
- Replies are taken as already populated on each comment (`commentReplies`). `controllers/comment.js` is not part of this model.
- The other handlers are left out: `getUserProfile`, `getUserInfo`, `getUsers`, `getRandomUsers`, `deleteUserInfo`, `getOnlyPost`, `getPostLikes`, `getPostComments`, `deleteOnlyPost`, `deleteUserPosts` and `deletePosts`. They are lookups or deletions outside the modelled core.
- Some behaviour of the code is easy to miss. The model follows the code in each case:
  - an unfollow without an edge succeeds rather than failing (`Follow.UnfollowPullsBothSides`);
  - the comment and reply lists are last-wins rather than a merge across posts (`Notice.NoticeCommentsLastWins`, `Notice.NoticeRepliesLastWins`);
  - posts can be updated by any authenticated user (`Posts.UpdateIgnoresOwner`);
  - following a user with no document leaves a one-sided edge (`Follow.FollowOfMissingUserLeavesOneSidedEdge`).
