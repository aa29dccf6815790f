/**
 * The user collection as the handlers change it in place: a map from id to
 * document that `PATCH /follows` and `PATCH /user/:user_id` update one
 * conditional write at a time.
 */
module Store {
  import opened Errors
  import opened Users
  import opened Follow
  import opened Profile

  class UserStore {
    var users: map<Id, User>

    constructor (initial: map<Id, User>)
      ensures users == initial
    {
      users := initial;
    }

    /**
     * `toggleFollows`: the checks, then the two writes in turn. `data` is what the
     * first write returned (the actor's updated document, or nothing when its filter
     * matched no document); the second write runs whatever the first did.
     */
    method ToggleFollows(req: FollowRequest, authUser: Id, now: int) returns (r: Result<User>)
      modifies this
      ensures Toggled(users, r) == Toggle(old(users), req, authUser, now)
    {
      var actor := ActingUser(req, authUser);
      var follow := req.followMode == "follow";
      if req.userId == "" || req.followMode == "" {
        return Err(FieldFailed);
      }
      if actor == req.userId {
        return Err(SelfFollow);
      }
      var data: Option<User>;
      if follow {
        if actor in users && !HasUser(users[actor].followings, req.userId) {
          users := users[actor := users[actor].(followings := users[actor].followings + [Edge(req.userId, now)])];
          data := Some(users[actor]);
        } else {
          data := None;
        }
        if req.userId in users && !HasUser(users[req.userId].followers, actor) {
          users := users[req.userId := users[req.userId].(followers := users[req.userId].followers + [Edge(actor, now)])];
        }
      } else {
        if actor in users {
          users := users[actor := users[actor].(followings := Pull(users[actor].followings, req.userId))];
          data := Some(users[actor]);
        } else {
          data := None;
        }
        if req.userId in users {
          users := users[req.userId := users[req.userId].(followers := Pull(users[req.userId].followers, actor))];
        }
      }
      if data.None? {
        r := Err(if follow then AlreadyFollowing else AlreadyUnfollowed);
      } else {
        r := Ok(data.value);
      }
    }

    /**
     * `updateUserInfo`: build the patch, then `findByIdAndUpdate`; an id with no
     * document reports "not found" and writes nothing.
     */
    method UpdateUserInfo(userId: string, name: Option<string>, avatar: Option<string>) returns (r: Result<User>)
      modifies this
      ensures ProfilePatchFor(userId, name, avatar).Err? ==>
                r == Err(ProfilePatchFor(userId, name, avatar).error) && users == old(users)
      ensures ProfilePatchFor(userId, name, avatar).Ok? && userId !in old(users) ==>
                r == Err(DataNotFound) && users == old(users)
      ensures ProfilePatchFor(userId, name, avatar).Ok? && userId in old(users) ==>
                && users == old(users)[userId := ApplyProfile(old(users)[userId], ProfilePatchFor(userId, name, avatar).value)]
                && r == Ok(users[userId])
    {
      var patch := ProfilePatchFor(userId, name, avatar);
      if patch.Err? {
        return Err(patch.error);
      }
      if userId !in users {
        return Err(DataNotFound);
      }
      users := users[userId := ApplyProfile(users[userId], patch.value)];
      r := Ok(users[userId]);
    }
  }
}
