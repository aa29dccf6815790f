/**
 * The follow-graph mutation of `PATCH /follows` and the read of `GET /follows_list`,
 * as functions of the user store (a map from id to user document).
 *
 * A toggle is two separate conditional writes, run one after the other:
 * follow adds `{ user: target, createdAt: now }` to the actor's `followings`
 * unless an entry for the target is there, then adds `{ user: actor, createdAt: now }`
 * to the target's `followers` unless an entry for the actor is there; unfollow
 * pulls every matching entry from both lists. The second write runs whatever
 * the first one did. `UserStore.ToggleFollows` (module Store) performs the two
 * writes step by step and is proved to agree with `Toggle`.
 */
module Follow {
  import opened Errors
  import opened Users

  /** The query of `PATCH /follows`; an absent parameter is "" (both are falsy in the handler). */
  datatype FollowRequest = FollowRequest(userId: string, followMode: string, targetId: string)

  /** The store after a toggle, and what the handler reports. */
  datatype Toggled = Toggled(users: map<Id, User>, result: Result<User>)

  /** The user the toggle acts for: `target_id`, falling back to the authenticated user. */
  function ActingUser(req: FollowRequest, authUser: Id): (a: Id)
    ensures req.targetId != "" ==> a == req.targetId
    ensures req.targetId == "" ==> a == authUser
  {
    if req.targetId != "" then req.targetId else authUser
  }

  /** Both required query fields are present. */
  predicate HasRequiredFields(req: FollowRequest) {
    req.userId != "" && req.followMode != ""
  }

  /** The request reaches the store: fields present and the actor is not the target. */
  predicate Proceeds(req: FollowRequest, authUser: Id) {
    HasRequiredFields(req) && ActingUser(req, authUser) != req.userId
  }

  /** The first write of a follow matches a document: the actor exists and has no entry for `b`. */
  predicate FollowMatches(users: map<Id, User>, a: Id, b: Id) {
    a in users && !HasUser(users[a].followings, b)
  }

  /**
   * Follow, first write: add `b` to the followings of `a` unless present. Afterwards `a`
   * (if it exists) follows `b`, whom else it follows is unchanged, and no other field or
   * user moves.
   */
  function AddFollowing(users: map<Id, User>, a: Id, b: Id, now: int): (r: map<Id, User>)
    ensures r.Keys == users.Keys
    ensures forall x :: x in users && x != a ==> r[x] == users[x]
    ensures a in users ==> && HasUser(r[a].followings, b)
                           && (forall v :: v != b ==> (HasUser(r[a].followings, v) <==> HasUser(users[a].followings, v)))
                           && |r[a].followings| <= |users[a].followings| + 1
                           && r[a] == users[a].(followings := r[a].followings)
  {
    if FollowMatches(users, a, b) then
      AppendedHasUsers(users[a].followings, Edge(b, now));
      users[a := users[a].(followings := users[a].followings + [Edge(b, now)])]
    else
      users
  }

  /** Follow, second write: add `a` to the followers of `b` unless present; the mirror of `AddFollowing`. */
  function AddFollower(users: map<Id, User>, b: Id, a: Id, now: int): (r: map<Id, User>)
    ensures r.Keys == users.Keys
    ensures forall x :: x in users && x != b ==> r[x] == users[x]
    ensures b in users ==> && HasUser(r[b].followers, a)
                           && (forall v :: v != a ==> (HasUser(r[b].followers, v) <==> HasUser(users[b].followers, v)))
                           && |r[b].followers| <= |users[b].followers| + 1
                           && r[b] == users[b].(followers := r[b].followers)
  {
    if b in users && !HasUser(users[b].followers, a) then
      AppendedHasUsers(users[b].followers, Edge(a, now));
      users[b := users[b].(followers := users[b].followers + [Edge(a, now)])]
    else
      users
  }

  /**
   * Unfollow, first write: pull every entry for `b` from the followings of `a`. Afterwards
   * `a` (if it exists) does not follow `b`, whom else it follows is unchanged, and no other
   * field or user moves.
   */
  function PullFollowing(users: map<Id, User>, a: Id, b: Id): (r: map<Id, User>)
    ensures r.Keys == users.Keys
    ensures forall x :: x in users && x != a ==> r[x] == users[x]
    ensures a in users ==> && !HasUser(r[a].followings, b)
                           && (forall v :: v != b ==> (HasUser(r[a].followings, v) <==> HasUser(users[a].followings, v)))
                           && r[a] == users[a].(followings := Pull(users[a].followings, b))
  {
    if a in users then users[a := users[a].(followings := Pull(users[a].followings, b))] else users
  }

  /** Unfollow, second write: pull every entry for `a` from the followers of `b`; the mirror of `PullFollowing`. */
  function PullFollower(users: map<Id, User>, b: Id, a: Id): (r: map<Id, User>)
    ensures r.Keys == users.Keys
    ensures forall x :: x in users && x != b ==> r[x] == users[x]
    ensures b in users ==> && !HasUser(r[b].followers, a)
                           && (forall v :: v != a ==> (HasUser(r[b].followers, v) <==> HasUser(users[b].followers, v)))
                           && r[b] == users[b].(followers := Pull(users[b].followers, a))
  {
    if b in users then users[b := users[b].(followers := Pull(users[b].followers, a))] else users
  }

  /**
   * `toggleFollows`. Any non-empty `follow_mode` other than "follow" unfollows.
   * The reported record is the actor's document as the first write returned it.
   */
  function Toggle(users: map<Id, User>, req: FollowRequest, authUser: Id, now: int): (o: Toggled)
    ensures o.users.Keys == users.Keys
    ensures forall x :: x in users && x != ActingUser(req, authUser) && x != req.userId ==> o.users[x] == users[x]
    ensures forall x :: x in users ==> o.users[x].name == users[x].name && o.users[x].avatar == users[x].avatar
    ensures o.result == Err(FieldFailed) <==> !HasRequiredFields(req)
    ensures o.result == Err(SelfFollow) <==> HasRequiredFields(req) && ActingUser(req, authUser) == req.userId
    ensures !Proceeds(req, authUser) ==> o.users == users
    ensures o.result.Ok? <==>
              Proceeds(req, authUser) &&
              (if req.followMode == "follow" then FollowMatches(users, ActingUser(req, authUser), req.userId)
               else ActingUser(req, authUser) in users)
    ensures Proceeds(req, authUser) && !o.result.Ok? ==>
              o.result == Err(if req.followMode == "follow" then AlreadyFollowing else AlreadyUnfollowed)
    ensures o.result.Ok? ==> o.result.value == o.users[ActingUser(req, authUser)]
  {
    if !HasRequiredFields(req) then
      Toggled(users, Err(FieldFailed))
    else
      var a, b := ActingUser(req, authUser), req.userId;
      if a == b then
        Toggled(users, Err(SelfFollow))
      else if req.followMode == "follow" then
        var first := AddFollowing(users, a, b, now);
        var second := AddFollower(first, b, a, now);
        Toggled(second, if FollowMatches(users, a, b) then Ok(first[a]) else Err(AlreadyFollowing))
      else
        var first := PullFollowing(users, a, b);
        var second := PullFollower(first, b, a);
        Toggled(second, if a in users then Ok(first[a]) else Err(AlreadyUnfollowed))
  }

  /** `a` lists `b` among its followings. */
  predicate Follows(users: map<Id, User>, a: Id, b: Id) {
    a in users && HasUser(users[a].followings, b)
  }

  /** `b` lists `a` among its followers. */
  predicate FollowedBy(users: map<Id, User>, b: Id, a: Id) {
    b in users && HasUser(users[b].followers, a)
  }

  /** The dual-edge invariant: `b` is in the followings of `a` iff `a` is in the followers of `b`. */
  ghost predicate Symmetric(users: map<Id, User>) {
    forall a, b :: Follows(users, a, b) <==> FollowedBy(users, b, a)
  }

  /** No user follows itself. */
  ghost predicate NoSelfFollows(users: map<Id, User>) {
    forall a :: !Follows(users, a, a)
  }

  /** No edge list of any user holds two entries for the same user. */
  ghost predicate NoDuplicateEdges(users: map<Id, User>) {
    forall x :: x in users ==> UniqueUsers(users[x].followings) && UniqueUsers(users[x].followers)
  }

  /** Any non-empty mode other than "follow" behaves exactly as "unfollow". */
  lemma OtherModesUnfollow(users: map<Id, User>, req: FollowRequest, authUser: Id, now: int)
    requires req.followMode != "" && req.followMode != "follow"
    ensures Toggle(users, req, authUser, now) == Toggle(users, req.(followMode := "unfollow"), authUser, now)
  {
  }

  /** How a toggle changes the followings side of one pair: only the pair (actor, target) moves. */
  lemma FollowsAfterToggle(users: map<Id, User>, req: FollowRequest, authUser: Id, now: int, x: Id, y: Id)
    ensures Follows(Toggle(users, req, authUser, now).users, x, y) <==>
              if Proceeds(req, authUser) && x == ActingUser(req, authUser) && y == req.userId then
                req.followMode == "follow" && x in users
              else
                Follows(users, x, y)
  {
    var a, b := ActingUser(req, authUser), req.userId;
    var o := Toggle(users, req, authUser, now);
    if Proceeds(req, authUser) && x == a && x in users {
      if req.followMode == "follow" {
        if FollowMatches(users, a, b) {
          AppendedHasUser(users[a].followings, Edge(b, now), y);
        }
      } else if y != b {
        PullKeepsOthers(users[a].followings, b, y);
      }
    }
  }

  /** How a toggle changes the followers side of one pair: only the pair (target, actor) moves. */
  lemma FollowedByAfterToggle(users: map<Id, User>, req: FollowRequest, authUser: Id, now: int, y: Id, x: Id)
    ensures FollowedBy(Toggle(users, req, authUser, now).users, y, x) <==>
              if Proceeds(req, authUser) && x == ActingUser(req, authUser) && y == req.userId then
                req.followMode == "follow" && y in users
              else
                FollowedBy(users, y, x)
  {
    var a, b := ActingUser(req, authUser), req.userId;
    if Proceeds(req, authUser) && y == b && y in users {
      if req.followMode == "follow" {
        var first := AddFollowing(users, a, b, now);
        assert first[b] == users[b];
        if !HasUser(users[b].followers, a) {
          AppendedHasUser(users[b].followers, Edge(a, now), x);
        }
      } else if x != a {
        var first := PullFollowing(users, a, b);
        assert first[b] == users[b];
        PullKeepsOthers(users[b].followers, a, x);
      }
    }
  }

  /** When both users exist, every toggle keeps the dual-edge invariant. */
  lemma ToggleKeepsSymmetric(users: map<Id, User>, req: FollowRequest, authUser: Id, now: int)
    requires Symmetric(users)
    requires ActingUser(req, authUser) in users && req.userId in users
    ensures Symmetric(Toggle(users, req, authUser, now).users)
  {
    var after := Toggle(users, req, authUser, now).users;
    forall x, y ensures Follows(after, x, y) <==> FollowedBy(after, y, x) {
      FollowsAfterToggle(users, req, authUser, now, x, y);
      FollowedByAfterToggle(users, req, authUser, now, y, x);
    }
  }

  /**
   * Following a user that has no document still records the edge on the actor's side:
   * the handler never checks that `user_id` exists, so the invariant needs both users.
   */
  lemma FollowOfMissingUserLeavesOneSidedEdge(users: map<Id, User>, req: FollowRequest, authUser: Id, now: int)
    requires Proceeds(req, authUser) && req.followMode == "follow"
    requires ActingUser(req, authUser) in users && req.userId !in users
    ensures Follows(Toggle(users, req, authUser, now).users, ActingUser(req, authUser), req.userId)
    ensures !FollowedBy(Toggle(users, req, authUser, now).users, req.userId, ActingUser(req, authUser))
  {
    FollowsAfterToggle(users, req, authUser, now, ActingUser(req, authUser), req.userId);
  }

  /** A toggle never makes a user follow itself. */
  lemma ToggleKeepsNoSelfFollows(users: map<Id, User>, req: FollowRequest, authUser: Id, now: int)
    requires NoSelfFollows(users)
    ensures NoSelfFollows(Toggle(users, req, authUser, now).users)
  {
    var after := Toggle(users, req, authUser, now).users;
    forall x ensures !Follows(after, x, x) {
      FollowsAfterToggle(users, req, authUser, now, x, x);
    }
  }

  /** Repeated follows never create a second entry for the same user on either side. */
  lemma ToggleKeepsNoDuplicateEdges(users: map<Id, User>, req: FollowRequest, authUser: Id, now: int)
    requires NoDuplicateEdges(users)
    ensures NoDuplicateEdges(Toggle(users, req, authUser, now).users)
  {
    if Proceeds(req, authUser) {
      var a, b := ActingUser(req, authUser), req.userId;
      if req.followMode == "follow" {
        var first := AddFollowing(users, a, b, now);
        if FollowMatches(users, a, b) {
          AppendKeepsUnique(users[a].followings, Edge(b, now));
        }
        assert NoDuplicateEdges(first);
        if b in first && !HasUser(first[b].followers, a) {
          AppendKeepsUnique(first[b].followers, Edge(a, now));
        }
      } else {
        var first := PullFollowing(users, a, b);
        if a in users {
          PullKeepsUnique(users[a].followings, b);
        }
        assert NoDuplicateEdges(first);
        if b in first {
          PullKeepsUnique(first[b].followers, a);
        }
      }
    }
  }

  /**
   * A follow that goes through appends exactly one entry for the target, stamped `now`,
   * to the actor's followings, and reports that record.
   */
  lemma FollowAddsOneEntry(users: map<Id, User>, req: FollowRequest, authUser: Id, now: int)
    requires req.followMode == "follow"
    requires Toggle(users, req, authUser, now).result.Ok?
    ensures var a := ActingUser(req, authUser);
            var f := Toggle(users, req, authUser, now).result.value.followings;
            && f == users[a].followings + [Edge(req.userId, now)]
            && forall i :: 0 <= i < |f| && f[i].user == req.userId ==> i == |f| - 1 && f[i] == Edge(req.userId, now)
  {
  }

  /** A follow when the actor already follows the target reports "already following" and leaves the actor alone. */
  lemma FollowWhenFollowingIsRejected(users: map<Id, User>, req: FollowRequest, authUser: Id, now: int)
    requires Proceeds(req, authUser) && req.followMode == "follow"
    requires Follows(users, ActingUser(req, authUser), req.userId)
    ensures Toggle(users, req, authUser, now).result == Err(AlreadyFollowing)
    ensures Toggle(users, req, authUser, now).users[ActingUser(req, authUser)] == users[ActingUser(req, authUser)]
  {
  }

  /** The target's followers gain the actor exactly when it is absent, whatever the first write did. */
  lemma FollowAddsFollowerIfAbsent(users: map<Id, User>, req: FollowRequest, authUser: Id, now: int)
    requires Proceeds(req, authUser) && req.followMode == "follow" && req.userId in users
    ensures var before := users[req.userId].followers;
            var after := Toggle(users, req, authUser, now).users[req.userId].followers;
            after == if HasUser(before, ActingUser(req, authUser)) then before
                     else before + [Edge(ActingUser(req, authUser), now)]
  {
    var first := AddFollowing(users, ActingUser(req, authUser), req.userId, now);
    assert first[req.userId] == users[req.userId];
  }

  /** Following twice: the second call reports "already following" and changes nothing. */
  lemma {:induction false} FollowIsIdempotent(users: map<Id, User>, req: FollowRequest, authUser: Id, now: int, later: int)
    requires Proceeds(req, authUser) && req.followMode == "follow"
    ensures var once := Toggle(users, req, authUser, now).users;
            Toggle(once, req, authUser, later) == Toggled(once, Err(AlreadyFollowing))
  {
    var a, b := ActingUser(req, authUser), req.userId;
    var once := Toggle(users, req, authUser, now).users;
    FollowsAfterToggle(users, req, authUser, now, a, b);
    FollowedByAfterToggle(users, req, authUser, now, b, a);
    assert AddFollowing(once, a, b, later) == once;
    assert AddFollower(once, b, a, later) == once;
  }

  /**
   * Unfollow pulls every entry for the target from the actor's followings and every
   * entry for the actor from the target's followers; nothing else moves. A missing
   * edge is not an error: only a missing actor record is.
   */
  lemma UnfollowPullsBothSides(users: map<Id, User>, req: FollowRequest, authUser: Id, now: int)
    requires Proceeds(req, authUser) && req.followMode != "follow"
    ensures var a, b := ActingUser(req, authUser), req.userId;
            var o := Toggle(users, req, authUser, now);
            && (a in users ==> o.users[a].followings == Pull(users[a].followings, b))
            && (b in users ==> o.users[b].followers == Pull(users[b].followers, a))
            && (a in users ==> forall e :: e in o.users[a].followings <==> e in users[a].followings && e.user != b)
            && (a in users ==> o.users[a].followers == users[a].followers)
            && (b in users ==> forall e :: e in o.users[b].followers <==> e in users[b].followers && e.user != a)
            && (b in users ==> o.users[b].followings == users[b].followings)
            && (o.result == Err(AlreadyUnfollowed) <==> a !in users)
            && (a in users && !HasUser(users[a].followings, b) ==> o.result == Ok(users[a]))
  {
    var a, b := ActingUser(req, authUser), req.userId;
    var first := PullFollowing(users, a, b);
    if b in users {
      assert first[b] == users[b];
    }
  }

  /** When both users exist and share no edge, follow then unfollow restores the store. */
  lemma FollowThenUnfollowRestores(users: map<Id, User>, req: FollowRequest, authUser: Id, now: int)
    requires Proceeds(req, authUser) && req.followMode == "follow"
    requires ActingUser(req, authUser) in users && req.userId in users
    requires !Follows(users, ActingUser(req, authUser), req.userId)
    requires !FollowedBy(users, req.userId, ActingUser(req, authUser))
    ensures var followed := Toggle(users, req, authUser, now);
            var unfollowed := Toggle(followed.users, req.(followMode := "unfollow"), authUser, now);
            followed.result.Ok? && unfollowed == Toggled(users, Ok(users[ActingUser(req, authUser)]))
  {
    var a, b := ActingUser(req, authUser), req.userId;
    var followed := Toggle(users, req, authUser, now).users;
    var ua, ub := users[a], users[b];
    assert followed == users[a := ua.(followings := ua.followings + [Edge(b, now)])]
                            [b := ub.(followers := ub.followers + [Edge(a, now)])];
    PullAppended(ua.followings, b, now);
    PullAppended(ub.followers, a, now);
    var first := PullFollowing(followed, a, b);
    assert first[a] == ua;
    var second := PullFollower(first, b, a);
    assert second[b] == ub;
    assert second == users;
  }

  /** The two lists returned by `GET /follows_list`. */
  datatype FollowLists = FollowLists(followings: seq<Edge>, followers: seq<Edge>)

  /**
   * `getFollowsList`: a missing id is a field error; an id with no document makes the
   * handler read `data[0].followings` of an empty result, a runtime fault.
   */
  function FollowsList(users: map<Id, User>, userId: string): (r: Result<FollowLists>)
    ensures r == Err(FieldFailed) <==> userId == ""
    ensures r == Err(RuntimeFault) <==> userId != "" && userId !in users
    ensures r.Ok? <==> userId != "" && userId in users
    ensures r.Ok? ==> forall u :: (HasUser(r.value.followings, u) <==> Follows(users, userId, u))
                              && (HasUser(r.value.followers, u) <==> FollowedBy(users, userId, u))
  {
    if userId == "" then Err(FieldFailed)
    else if userId !in users then Err(RuntimeFault)
    else Ok(FollowLists(users[userId].followings, users[userId].followers))
  }

  /** After a follow between existing users, each side's list shows the other. */
  lemma FollowShowsInBothLists(users: map<Id, User>, req: FollowRequest, authUser: Id, now: int)
    requires Proceeds(req, authUser) && req.followMode == "follow"
    requires ActingUser(req, authUser) in users && req.userId in users
    requires ActingUser(req, authUser) != ""
    ensures var after := Toggle(users, req, authUser, now).users;
            && FollowsList(after, ActingUser(req, authUser)).Ok?
            && HasUser(FollowsList(after, ActingUser(req, authUser)).value.followings, req.userId)
            && FollowsList(after, req.userId).Ok?
            && HasUser(FollowsList(after, req.userId).value.followers, ActingUser(req, authUser))
  {
    FollowsAfterToggle(users, req, authUser, now, ActingUser(req, authUser), req.userId);
    FollowedByAfterToggle(users, req, authUser, now, req.userId, ActingUser(req, authUser));
  }
}
