/**
 * The user document as far as the follow graph and the profile are concerned.
 *
 * Each user carries two edge lists, `followings` (whom the user follows) and
 * `followers` (who follows the user); an edge is `{ user, createdAt }`. The
 * store's two conditional set updates are modelled here on edge lists:
 * "add unless an entry for that user is present" (a filter
 * `'followings.user': { $ne: id }` followed by `$addToSet`) and `$pull`.
 */
module Users {

  /** A document id as the handlers see it: its string form. */
  type Id = string

  datatype Edge = Edge(user: Id, createdAt: int)

  datatype User = User(name: string, avatar: string, followings: seq<Edge>, followers: seq<Edge>)

  /** Some entry of `edges` points at `u` (what `'<list>.user': u` matches). */
  predicate HasUser(edges: seq<Edge>, u: Id) {
    exists i :: 0 <= i < |edges| && edges[i].user == u
  }

  /** No user appears twice in `edges`. */
  ghost predicate UniqueUsers(edges: seq<Edge>) {
    forall i, j :: 0 <= i < j < |edges| ==> edges[i].user != edges[j].user
  }

  /** `$pull: { <list>: { user: u } }`: every entry for `u` goes, the rest stay in order. */
  function Pull(edges: seq<Edge>, u: Id): (r: seq<Edge>)
    ensures |r| <= |edges|
    ensures !HasUser(r, u)
    ensures forall e :: e in r <==> e in edges && e.user != u
    ensures !HasUser(edges, u) ==> r == edges
  {
    if edges == [] then
      []
    else
      assert edges == [edges[0]] + edges[1..];
      var rest := Pull(edges[1..], u);
      if edges[0].user == u then
        rest
      else
        assert HasUser(edges, u) ==> HasUser(edges[1..], u);
        [edges[0]] + rest
  }

  lemma HasUserIffMember(edges: seq<Edge>, u: Id)
    ensures HasUser(edges, u) <==> exists e :: e in edges && e.user == u
  {
    if HasUser(edges, u) {
      var i :| 0 <= i < |edges| && edges[i].user == u;
      assert edges[i] in edges;
    }
  }

  /** Other users are found in the pulled list exactly when they were found before. */
  lemma PullKeepsOthers(edges: seq<Edge>, u: Id, v: Id)
    requires v != u
    ensures HasUser(Pull(edges, u), v) <==> HasUser(edges, v)
  {
    HasUserIffMember(edges, v);
    HasUserIffMember(Pull(edges, u), v);
  }

  lemma HeadNotInTail(edges: seq<Edge>)
    requires edges != [] && UniqueUsers(edges)
    ensures !HasUser(edges[1..], edges[0].user)
  {
  }

  lemma ConsKeepsUnique(x: Edge, rest: seq<Edge>)
    requires UniqueUsers(rest) && !HasUser(rest, x.user)
    ensures UniqueUsers([x] + rest)
  {
    var r := [x] + rest;
    forall i, j | 0 <= i < j < |r| ensures r[i].user != r[j].user {
      assert r[j] == rest[j - 1];
      if i > 0 {
        assert r[i] == rest[i - 1];
      }
    }
  }

  lemma {:induction false} PullKeepsUnique(edges: seq<Edge>, u: Id)
    requires UniqueUsers(edges)
    ensures UniqueUsers(Pull(edges, u))
  {
    if edges != [] {
      var tail := edges[1..];
      assert UniqueUsers(tail) by {
        forall i, j | 0 <= i < j < |tail| ensures tail[i].user != tail[j].user {
          assert tail[i] == edges[i + 1] && tail[j] == edges[j + 1];
        }
      }
      PullKeepsUnique(tail, u);
      var rest := Pull(tail, u);
      if edges[0].user != u {
        HeadNotInTail(edges);
        PullKeepsOthers(tail, u, edges[0].user);
        ConsKeepsUnique(edges[0], rest);
      }
    }
  }

  /** Appending an entry makes its user present and changes nothing for others. */
  lemma AppendedHasUser(edges: seq<Edge>, e: Edge, v: Id)
    ensures HasUser(edges + [e], v) <==> HasUser(edges, v) || e.user == v
  {
    var r := edges + [e];
    if e.user == v {
      assert r[|edges|].user == v;
    }
    if HasUser(edges, v) {
      var i :| 0 <= i < |edges| && edges[i].user == v;
      assert r[i].user == v;
    }
    if HasUser(r, v) && e.user != v {
      var i :| 0 <= i < |r| && r[i].user == v;
      assert edges[i].user == v;
    }
  }

  /** `AppendedHasUser` for every user at once. */
  lemma AppendedHasUsers(edges: seq<Edge>, e: Edge)
    ensures forall v :: HasUser(edges + [e], v) <==> HasUser(edges, v) || e.user == v
  {
    forall v ensures HasUser(edges + [e], v) <==> HasUser(edges, v) || e.user == v {
      AppendedHasUser(edges, e, v);
    }
  }

  /** Appending an entry for a user not yet present keeps the list free of duplicates. */
  lemma AppendKeepsUnique(edges: seq<Edge>, e: Edge)
    requires UniqueUsers(edges) && !HasUser(edges, e.user)
    ensures UniqueUsers(edges + [e])
  {
    var r := edges + [e];
    forall i, j | 0 <= i < j < |r| ensures r[i].user != r[j].user {
      if j == |edges| {
        assert r[i] == edges[i];
      }
    }
  }

  /**
   * The pull works entry by entry: the kept entries stay in their order and with their
   * multiplicity (together with the membership clauses of `Pull`, this fixes the result).
   */
  lemma {:induction false} PullAppend(a: seq<Edge>, b: seq<Edge>, u: Id)
    ensures Pull(a + b, u) == Pull(a, u) + Pull(b, u)
  {
    if a == [] {
      assert a + b == b;
    } else {
      assert (a + b)[0] == a[0] && (a + b)[1..] == a[1..] + b;
      PullAppend(a[1..], b, u);
    }
  }

  /** Pulling an entry that was just appended to a list without `u` restores the list. */
  lemma {:induction false} PullAppended(edges: seq<Edge>, u: Id, t: int)
    requires !HasUser(edges, u)
    ensures Pull(edges + [Edge(u, t)], u) == edges
  {
    if edges == [] {
      assert Pull([Edge(u, t)], u) == Pull([], u);
    } else {
      var s := edges + [Edge(u, t)];
      assert s[0] == edges[0] && s[1..] == edges[1..] + [Edge(u, t)];
      assert edges[0].user != u;
      assert !HasUser(edges[1..], u);
      PullAppended(edges[1..], u, t);
      assert edges == [edges[0]] + edges[1..];
    }
  }
}
