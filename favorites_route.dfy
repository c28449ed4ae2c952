/** `GET`, `POST` and `DELETE /api/favorites` (app/api/favorites/route.js):
    the caller's follow edges in the `favorites` collection. */
module FavoritesRoute {
  import opened Wrappers
  import opened Lists
  import opened Store

  /** The edge from `email` to `username` is this document. */
  predicate IsEdge(f: Favorite, email: string, username: string) {
    f.userEmail == email && f.favoritedUsername == username
  }

  predicate HasEdge(favs: seq<Favorite>, email: string, username: string) {
    exists i :: 0 <= i < |favs| && IsEdge(favs[i], email, username)
  }

  /** The position of the first document matching the `updateOne` /
      `deleteOne` filter `{ userEmail, favoritedUsername }`. */
  function FindEdge(favs: seq<Favorite>, email: string, username: string): (r: Option<nat>)
    ensures r.None? <==> !HasEdge(favs, email, username)
    ensures r.Some? ==> r.value < |favs| && IsEdge(favs[r.value], email, username)
    ensures r.Some? ==> forall j :: 0 <= j < r.value ==> !IsEdge(favs[j], email, username)
  {
    if favs == [] then None
    else if IsEdge(favs[0], email, username) then Some(0)
    else
      var r := FindEdge(favs[1..], email, username);
      if r.None? then None else Some(r.value + 1)
  }

  /** The first match is the position of an edge with none before it. */
  lemma FindEdgeAt(favs: seq<Favorite>, email: string, username: string, i: nat)
    requires i < |favs| && IsEdge(favs[i], email, username)
    requires forall j :: 0 <= j < i ==> !IsEdge(favs[j], email, username)
    ensures FindEdge(favs, email, username) == Some(i)
  {
  }

  /** `updateOne({ userEmail, favoritedUsername }, { $set: { favoritedAt } },
      { upsert: true })`. */
  function Upsert(favs: seq<Favorite>, email: string, username: string, at: int): (r: seq<Favorite>)
    ensures Favorite(email, username, at) in r
    ensures |r| == if HasEdge(favs, email, username) then |favs| else |favs| + 1
  {
    match FindEdge(favs, email, username)
    case None => favs + [Favorite(email, username, at)]
    case Some(i) =>
      var updated := favs[i := Favorite(email, username, at)];
      assert updated[i] == Favorite(email, username, at);
      updated
  }

  /** `deleteOne({ userEmail, favoritedUsername })`. */
  function DeleteOne(favs: seq<Favorite>, email: string, username: string): (r: seq<Favorite>)
    ensures |r| == if HasEdge(favs, email, username) then |favs| - 1 else |favs|
    ensures forall f :: f in r ==> f in favs
  {
    match FindEdge(favs, email, username)
    case None => favs
    case Some(i) => favs[..i] + favs[i + 1..]
  }

  /** The (follower, followed) pairs present. */
  function Keys(favs: seq<Favorite>): set<(string, string)> {
    set i | 0 <= i < |favs| :: (favs[i].userEmail, favs[i].favoritedUsername)
  }

  /** At most one document per pair. */
  ghost predicate EdgesUnique(favs: seq<Favorite>) {
    forall i, j :: 0 <= i < j < |favs| ==>
      (favs[i].userEmail, favs[i].favoritedUsername) != (favs[j].userEmail, favs[j].favoritedUsername)
  }

  /** The edges owned by `email`, in collection order. */
  function OwnedBy(favs: seq<Favorite>, email: string): seq<Favorite> {
    Filter(favs, Owner(email))
  }

  function Owner(email: string): Favorite -> bool {
    (f: Favorite) => f.userEmail == email
  }

  // ---------------------------------------------------------------------
  // Upsert

  /** After an upsert the edge is present exactly once, with the new time;
      the pair set gains exactly that pair. */
  lemma UpsertAdds(favs: seq<Favorite>, email: string, username: string, at: int)
    requires EdgesUnique(favs)
    ensures EdgesUnique(Upsert(favs, email, username, at))
    ensures Keys(Upsert(favs, email, username, at)) == Keys(favs) + {(email, username)}
    ensures Favorite(email, username, at) in Upsert(favs, email, username, at)
    ensures |Upsert(favs, email, username, at)| == |favs| + (if HasEdge(favs, email, username) then 0 else 1)
  {
    var r := Upsert(favs, email, username, at);
    var x := Favorite(email, username, at);
    match FindEdge(favs, email, username)
    case None =>
      assert r[|favs|] == x;
      forall k | k in Keys(r) ensures k in Keys(favs) + {(email, username)} {
        var i :| 0 <= i < |r| && k == (r[i].userEmail, r[i].favoritedUsername);
        if i < |favs| { assert r[i] == favs[i]; }
      }
      forall k | k in Keys(favs) ensures k in Keys(r) {
        var i :| 0 <= i < |favs| && k == (favs[i].userEmail, favs[i].favoritedUsername);
        assert r[i] == favs[i];
      }
    case Some(n) =>
      assert r[n] == x;
      assert (favs[n].userEmail, favs[n].favoritedUsername) == (email, username);
      forall k | k in Keys(r) ensures k in Keys(favs) {
        var i :| 0 <= i < |r| && k == (r[i].userEmail, r[i].favoritedUsername);
        if i != n { assert r[i] == favs[i]; }
      }
      forall k | k in Keys(favs) ensures k in Keys(r) {
        var i :| 0 <= i < |favs| && k == (favs[i].userEmail, favs[i].favoritedUsername);
        if i != n { assert r[i] == favs[i]; }
      }
  }

  /** Repeating the `POST` changes nothing but the time. */
  lemma UpsertTwice(favs: seq<Favorite>, email: string, username: string, t1: int, t2: int)
    ensures Upsert(Upsert(favs, email, username, t1), email, username, t2) == Upsert(favs, email, username, t2)
  {
    var once := Upsert(favs, email, username, t1);
    match FindEdge(favs, email, username)
    case None =>
      FindEdgeAt(once, email, username, |favs|);
    case Some(n) =>
      FindEdgeAt(once, email, username, n);
  }

  // ---------------------------------------------------------------------
  // DeleteOne

  /** Removing position `n` shifts every later document down by one. */
  lemma RemoveAtIndex(favs: seq<Favorite>, n: nat)
    requires n < |favs|
    ensures |favs[..n] + favs[n + 1..]| == |favs| - 1
    ensures forall i :: 0 <= i < |favs| - 1 ==>
      (favs[..n] + favs[n + 1..])[i] == if i < n then favs[i] else favs[i + 1]
  {
  }

  /** Removing one document keeps the pairs unique. */
  lemma RemoveAtUnique(favs: seq<Favorite>, n: nat)
    requires n < |favs| && EdgesUnique(favs)
    ensures EdgesUnique(favs[..n] + favs[n + 1..])
  {
    var r := favs[..n] + favs[n + 1..];
    RemoveAtIndex(favs, n);
    forall i, j | 0 <= i < j < |r|
      ensures (r[i].userEmail, r[i].favoritedUsername) != (r[j].userEmail, r[j].favoritedUsername)
    {
      var a := if i < n then i else i + 1;
      var b := if j < n then j else j + 1;
      assert r[i] == favs[a] && r[j] == favs[b] && a < b;
    }
  }

  /** With unique pairs, removing the document at `n` removes its pair. */
  lemma RemoveAtKeys(favs: seq<Favorite>, n: nat)
    requires n < |favs| && EdgesUnique(favs)
    ensures Keys(favs[..n] + favs[n + 1..]) == Keys(favs) - {(favs[n].userEmail, favs[n].favoritedUsername)}
  {
    var r := favs[..n] + favs[n + 1..];
    var gone := (favs[n].userEmail, favs[n].favoritedUsername);
    RemoveAtIndex(favs, n);
    forall k | k in Keys(r) ensures k in Keys(favs) - {gone} {
      var i :| 0 <= i < |r| && k == (r[i].userEmail, r[i].favoritedUsername);
      var a := if i < n then i else i + 1;
      assert r[i] == favs[a] && a != n;
    }
    forall k | k in Keys(favs) - {gone} ensures k in Keys(r) {
      var a :| 0 <= a < |favs| && k == (favs[a].userEmail, favs[a].favoritedUsername);
      assert a != n;
      var i := if a < n then a else a - 1;
      assert r[i] == favs[a];
    }
  }

  /** Deleting removes the caller's edge to that username and nothing else;
      deleting an absent edge changes nothing. */
  lemma DeleteRemoves(favs: seq<Favorite>, email: string, username: string)
    requires EdgesUnique(favs)
    ensures EdgesUnique(DeleteOne(favs, email, username))
    ensures Keys(DeleteOne(favs, email, username)) == Keys(favs) - {(email, username)}
    ensures !HasEdge(favs, email, username) ==> DeleteOne(favs, email, username) == favs
  {
    match FindEdge(favs, email, username)
    case None =>
      forall k | k in Keys(favs) ensures k != (email, username) {
        var i :| 0 <= i < |favs| && k == (favs[i].userEmail, favs[i].favoritedUsername);
        assert !IsEdge(favs[i], email, username);
      }
    case Some(n) =>
      RemoveAtUnique(favs, n);
      RemoveAtKeys(favs, n);
  }

  /** A `POST` followed by a `DELETE` of an edge that was absent restores the
      collection. */
  lemma UpsertThenDelete(favs: seq<Favorite>, email: string, username: string, at: int)
    requires !HasEdge(favs, email, username)
    ensures DeleteOne(Upsert(favs, email, username, at), email, username) == favs
  {
    var once := Upsert(favs, email, username, at);
    FindEdgeAt(once, email, username, |favs|);
    assert once[..|favs|] == favs;
  }

  // ---------------------------------------------------------------------
  // Other callers' edges

  /** Filtering out one element the predicate rejects. */
  lemma OwnedBySplit(a: seq<Favorite>, x: Favorite, b: seq<Favorite>, who: string)
    requires x.userEmail != who
    ensures OwnedBy(a + [x] + b, who) == OwnedBy(a, who) + OwnedBy(b, who)
  {
    var p := Owner(who);
    assert !p(x);
    assert [x][1..] == [];
    assert Filter([x], p) == [];
    FilterAppend(a + [x], b, p);
    FilterAppend(a, [x], p);
  }

  lemma OwnedByUpdate(favs: seq<Favorite>, i: nat, x: Favorite, who: string)
    requires i < |favs| && favs[i].userEmail != who && x.userEmail != who
    ensures OwnedBy(favs[i := x], who) == OwnedBy(favs, who)
  {
    assert favs == favs[..i] + [favs[i]] + favs[i + 1..];
    assert favs[i := x] == favs[..i] + [x] + favs[i + 1..];
    OwnedBySplit(favs[..i], favs[i], favs[i + 1..], who);
    OwnedBySplit(favs[..i], x, favs[i + 1..], who);
  }

  lemma OwnedByRemove(favs: seq<Favorite>, i: nat, who: string)
    requires i < |favs| && favs[i].userEmail != who
    ensures OwnedBy(favs[..i] + favs[i + 1..], who) == OwnedBy(favs, who)
  {
    assert favs == favs[..i] + [favs[i]] + favs[i + 1..];
    OwnedBySplit(favs[..i], favs[i], favs[i + 1..], who);
    FilterAppend(favs[..i], favs[i + 1..], Owner(who));
  }

  /** Edges are keyed by the caller's email: another user's edges are never
      touched, in content or in order. */
  lemma OthersUntouched(favs: seq<Favorite>, email: string, username: string, at: int, who: string)
    requires who != email
    ensures OwnedBy(Upsert(favs, email, username, at), who) == OwnedBy(favs, who)
    ensures OwnedBy(DeleteOne(favs, email, username), who) == OwnedBy(favs, who)
  {
    match FindEdge(favs, email, username)
    case None =>
      FilterAppend(favs, [Favorite(email, username, at)], Owner(who));
    case Some(n) =>
      OwnedByUpdate(favs, n, Favorite(email, username, at), who);
      OwnedByRemove(favs, n, who);
  }

  // ---------------------------------------------------------------------
  // Handlers

  const Unauthorized401 := Response(401, "Unauthorized")
  const Done := Response(200, "success")

  /** The usernames the caller follows, in collection order. */
  function FollowedUsernames(favs: seq<Favorite>, email: string): (r: seq<string>)
    ensures forall u :: u in r <==> exists i :: 0 <= i < |favs| && IsEdge(favs[i], email, u)
  {
    if favs == [] then []
    else
      var rest := FollowedUsernames(favs[1..], email);
      assert forall i :: 0 < i < |favs| ==> favs[i] == favs[1..][i - 1];
      if favs[0].userEmail == email then [favs[0].favoritedUsername] + rest else rest
  }

  /** The `GET` handler: `users.find({ username: { $in: usernames } })`, the
      user documents (in collection order) whose username the caller
      follows. */
  function Get(favs: seq<Favorite>, users: seq<User>, session: Option<Session>): (r: Listing<User>)
    ensures r.Unauthorized? <==> session.None?
    ensures r.Ok? ==> forall u :: u in r.items <==>
      u in users && u.username.Some? && HasEdge(favs, session.value.email, u.username.value)
    ensures r.Ok? ==> |r.items| <= |users|
  {
    if session.None? then Unauthorized
    else
      var names := FollowedUsernames(favs, session.value.email);
      Ok(Filter(users, (u: User) => u.username.Some? && u.username.value in names))
  }

  /** The `POST` handler: follow `username`. */
  method Post(db: Database, session: Option<Session>, username: string, now: int) returns (resp: Response)
    modifies db`favorites
    ensures session.None? ==> resp == Unauthorized401 && db.favorites == old(db.favorites)
    ensures session.Some? ==>
      resp == Done && db.favorites == Upsert(old(db.favorites), session.value.email, username, now)
  {
    if session.None? {
      return Unauthorized401;
    }
    db.favorites := Upsert(db.favorites, session.value.email, username, now);
    return Done;
  }

  /** The `DELETE` handler: unfollow `username`. */
  method Delete(db: Database, session: Option<Session>, username: string) returns (resp: Response)
    modifies db`favorites
    ensures session.None? ==> resp == Unauthorized401 && db.favorites == old(db.favorites)
    ensures session.Some? ==>
      resp == Done && db.favorites == DeleteOne(old(db.favorites), session.value.email, username)
  {
    if session.None? {
      return Unauthorized401;
    }
    db.favorites := DeleteOne(db.favorites, session.value.email, username);
    return Done;
  }
}
