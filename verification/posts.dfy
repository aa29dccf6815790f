/**
 * The small rules of the post handlers: the listing options of `GET /posts` and
 * `GET /posts/user/:user_id` (sort key, comment order, page size and offset),
 * and the required-field checks and patch of `POST /post/1` and
 * `PATCH /post/1/:post_id`, with the post collection as a map from id to post.
 *
 * Query values arrive as strings. `s` and `cs` are modelled as strings ("" when
 * absent), `l` by the number it holds (None when absent or empty), and `p` by
 * `PageParam`, because an empty `p` and an absent one give different offsets.
 */
module Posts {
  import opened Errors
  import opened Users

  /** The order the listing is sorted in. */
  datatype PostOrder =
    | LikesDesc    // by the `likes` array, descending: the store compares each array's largest element
    | CreatedAsc   // oldest first
    | CreatedDesc  // newest first

  /**
   * The `p` query parameter: absent, present but empty (falsy, yet it converts to the
   * number 0), or a page number.
   */
  datatype PageParam = NoPage | EmptyPage | Page(n: int)

  /** Number of posts on a page when a page number is given. */
  const PageSize: nat := 8

  /** `limit` (0 means no limit) and `skip` (None where the handler computes NaN). */
  datatype Paging = Paging(limit: nat, skip: Option<int>)

  datatype Listing = Listing(order: PostOrder, commentDirection: int, paging: Paging)

  /**
   * "hot" sorts by the `likes` array, descending (the store compares each array's largest
   * element, not the number of likes); "old" by creation time, oldest first; anything else
   * newest first.
   */
  function PostOrderFor(s: string): (o: PostOrder)
    ensures o == LikesDesc <==> s == "hot"
    ensures o == CreatedAsc <==> s == "old"
    ensures o == CreatedDesc <==> s != "hot" && s != "old"
  {
    if s == "hot" then LikesDesc else if s == "old" then CreatedAsc else CreatedDesc
  }

  /** Comments are sorted by creation time, ascending (1) for "old" and descending (-1) otherwise. */
  function CommentDirection(cs: string): (d: int)
    ensures d == 1 || d == -1
    ensures d == 1 <==> cs == "old"
  {
    if cs == "old" then 1 else -1
  }

  /**
   * A page number fixes the limit at `PageSize`; otherwise the limit is `l`, or 0 (no
   * limit). The offset is one less than the page, times the limit, for every page: the
   * special case for page 1 compares a string with a number and never applies. An empty
   * `p` counts as 0 there, so the offset is minus the limit; an absent `p` gives NaN.
   */
  function PagingFor(p: PageParam, l: Option<nat>): (r: Paging)
    ensures p.Page? ==> r.limit == PageSize && r.skip == Some((p.n - 1) * PageSize)
    ensures !p.Page? ==> r.limit == l.GetOr(0)
    ensures p == NoPage <==> r.skip == None
    ensures p == EmptyPage ==> r.skip == Some(0 - l.GetOr(0) as int)
  {
    var limit: int := if p.Page? then PageSize else l.GetOr(0);
    match p
    case NoPage => Paging(limit, None)
    case EmptyPage => Paging(limit, Some((0 - 1) * limit))
    case Page(n) => Paging(limit, Some((n - 1) * limit))
  }

  /** Only page numbers of at least 1 and an empty `p` without `l` give an offset the store accepts (non-negative). */
  lemma NonNegativeOffsets(p: PageParam, l: Option<nat>)
    ensures PagingFor(p, l).skip.Some? && PagingFor(p, l).skip.value >= 0 <==>
              (p.Page? && p.n >= 1) || (p == EmptyPage && l.GetOr(0) == 0)
  {
  }

  /** Pages are consecutive blocks of `PageSize`: page 1 starts at 0, each next page right after. */
  lemma PageOffsets(p: int, l: Option<nat>)
    requires p >= 1
    ensures PagingFor(Page(1), l).skip == Some(0)
    ensures PagingFor(Page(p), l).skip.Some? && PagingFor(Page(p), l).skip.value >= 0
    ensures PagingFor(Page(p + 1), l).skip.value == PagingFor(Page(p), l).skip.value + PagingFor(Page(p), l).limit
  {
  }

  /** `getPosts`: the options both listing handlers compute from the query. */
  function ListingFor(s: string, cs: string, p: PageParam, l: Option<nat>): (r: Listing)
    ensures r.order == LikesDesc <==> s == "hot"
    ensures r.order == CreatedAsc <==> s == "old"
    ensures r.commentDirection == 1 <==> cs == "old"
    ensures r.commentDirection == 1 || r.commentDirection == -1
    ensures p.Page? ==> r.paging.limit == PageSize && r.paging.skip == Some((p.n - 1) * PageSize)
    ensures !p.Page? ==> r.paging.limit == l.GetOr(0)
    ensures p == EmptyPage ==> r.paging.skip == Some(0 - l.GetOr(0) as int)
    ensures r.paging.skip.None? <==> p == NoPage
  {
    Listing(PostOrderFor(s), CommentDirection(cs), PagingFor(p, l))
  }

  /** `getUserPosts`: the same options, after the check that `user_id` is present. */
  function UserListingFor(userId: string, s: string, cs: string, p: PageParam, l: Option<nat>): (r: Result<Listing>)
    ensures r.Err? <==> userId == ""
    ensures r.Err? ==> r.error == FieldFailed
    ensures r.Ok? ==> r.value == ListingFor(s, cs, p, l)
  {
    if userId == "" then Err(FieldFailed) else Ok(ListingFor(s, cs, p, l))
  }

  /**
   * What the store does with `skip` and `limit` on the sorted result: drop `skip`
   * posts, then keep at most `limit` (0 keeps all).
   */
  function Window<T>(s: seq<T>, skip: nat, limit: nat): (w: seq<T>)
    ensures |w| <= |s|
    ensures forall k :: 0 <= k < |w| ==> skip + k < |s| && w[k] == s[skip + k]
    ensures limit != 0 ==> |w| <= limit
    ensures skip + |w| >= |s| || (limit != 0 && |w| == limit)
  {
    var rest := if skip <= |s| then s[skip..] else [];
    if limit == 0 || |rest| <= limit then rest else rest[..limit]
  }

  /** Post `i` of the sorted listing is entry `i % 8` of page `i / 8 + 1`. */
  lemma PostOnItsPage<T>(s: seq<T>, i: nat, l: Option<nat>)
    requires i < |s|
    ensures var page := PagingFor(Page(i / PageSize + 1), l);
            && page.skip.Some? && page.skip.value >= 0
            && i % PageSize < |Window(s, page.skip.value, page.limit)|
            && Window(s, page.skip.value, page.limit)[i % PageSize] == s[i]
  {
    var page := PagingFor(Page(i / PageSize + 1), l);
    assert page.skip.value == (i / PageSize) * PageSize;
  }

  datatype Post = Post(user: Id, content: string, images: seq<string>, createdAt: int)

  /** The post collection after a handler, and what the handler reports. */
  datatype PostWrite = PostWrite(posts: map<Id, Post>, result: Result<Post>)

  /**
   * `createPost`: content and the authenticated user are required; the new post gets
   * the id `newId` the store assigns. Absent images are stored as an empty list.
   */
  function CreatePost(posts: map<Id, Post>, content: string, images: Option<seq<string>>, user: Id, newId: Id, now: int): (o: PostWrite)
    requires newId !in posts
    ensures o.result.Err? <==> content == "" || user == ""
    ensures o.result.Err? ==> o.result.error == FieldFailed && o.posts == posts
    ensures o.result.Ok? ==> && o.posts.Keys == posts.Keys + {newId}
                             && o.posts == posts[newId := o.result.value]
                             && o.result.value == Post(user, content, images.GetOr([]), now)
  {
    if content == "" || user == "" then
      PostWrite(posts, Err(FieldFailed))
    else
      var post := Post(user, content, images.GetOr([]), now);
      PostWrite(posts[newId := post], Ok(post))
  }

  /** The fields `updatePost` writes; an array is truthy even when empty, so any supplied `images` counts. */
  datatype PostPatch = PostPatch(content: Option<string>, images: Option<seq<string>>)

  /** The update patch: the images when supplied, the content when non-empty. */
  function PostPatchFor(content: string, images: Option<seq<string>>): (p: PostPatch)
    ensures p.content.Some? <==> content != ""
    ensures p.content.Some? ==> p.content.value == content
    ensures p.images == images
  {
    PostPatch(if content != "" then Some(content) else None, images)
  }

  /** The stored post after the update: patched fields replaced, the others kept. */
  function ApplyPostPatch(post: Post, patch: PostPatch): (q: Post)
    ensures q.user == post.user && q.createdAt == post.createdAt
    ensures q.content == patch.content.GetOr(post.content)
    ensures q.images == patch.images.GetOr(post.images)
  {
    Post(post.user, patch.content.GetOr(post.content), patch.images.GetOr(post.images), post.createdAt)
  }

  /**
   * `updatePost`: `post_id`, `content` and the authenticated user are required, then the
   * post must exist. The handler does not compare the post's owner with the user.
   */
  function UpdatePost(posts: map<Id, Post>, postId: Id, content: string, images: Option<seq<string>>, user: Id): (o: PostWrite)
    ensures o.result == Err(FieldFailed) <==> postId == "" || content == "" || user == ""
    ensures o.result == Err(DataNotFound) <==> postId != "" && content != "" && user != "" && postId !in posts
    ensures o.result.Ok? <==> postId != "" && content != "" && user != "" && postId in posts
    ensures o.result.Err? ==> o.posts == posts
    ensures o.result.Ok? ==> && postId in posts
                             && o.posts == posts[postId := o.result.value]
                             && o.result.value.content == content
                             && o.result.value.images == images.GetOr(posts[postId].images)
                             && o.result.value.user == posts[postId].user
                             && o.result.value.createdAt == posts[postId].createdAt
  {
    if postId == "" || content == "" || user == "" then
      PostWrite(posts, Err(FieldFailed))
    else if postId !in posts then
      PostWrite(posts, Err(DataNotFound))
    else
      var updated := ApplyPostPatch(posts[postId], PostPatchFor(content, images));
      PostWrite(posts[postId := updated], Ok(updated))
  }

  /** Any authenticated user can update any existing post: ownership is not checked. */
  lemma UpdateIgnoresOwner(posts: map<Id, Post>, postId: Id, content: string, images: Option<seq<string>>, user: Id)
    requires postId in posts && postId != "" && content != "" && user != ""
    requires posts[postId].user != user
    ensures UpdatePost(posts, postId, content, images, user).result.Ok?
  {
  }
}
