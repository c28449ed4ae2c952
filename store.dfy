/** The documents of the application's database and the database itself.
    Each collection is a sequence in insertion order; a query that the
    source runs with `findOne` returns the first matching document. */
module Store {
  import opened Wrappers

  /** A document of the `users` collection; fields the source may leave
      unset are optional. */
  datatype User = User(
    email: string,
    password: Option<string>,    // bcrypt digest; absent for Google accounts
    name: Option<string>,
    username: Option<string>,
    image: Option<string>,
    createdAt: int)

  /** A document of the `allowedEmails` collection (the invite allow-list). */
  datatype Permit = Permit(
    email: string,
    school: string,
    referringUsername: Option<string>,
    createdAt: int)

  /** A document of the `favorites` collection: a follow edge from the
      account `userEmail` to the account `favoritedUsername`. */
  datatype Favorite = Favorite(
    userEmail: string,
    favoritedUsername: string,
    favoritedAt: int)

  /** A document of the `viewingHistory` collection: one profile view. */
  datatype View = View(
    userEmail: string,
    viewedUsername: string,
    viewedUserName: string,
    viewedUserImage: Option<string>,
    viewedAt: int)

  /** The signed-in user as the session reports it. */
  datatype Session = Session(email: string, username: Option<string>)

  /** A route's HTTP response: status code and its text or `message`. */
  datatype Response = Response(status: int, message: string)

  /** A route that answers with a JSON array, or with 401 when there is no
      session. */
  datatype Listing<T> = Unauthorized | Ok(items: seq<T>) {
    function Status(): int {
      if Unauthorized? then 401 else 200
    }
  }

  class Database {
    var allowedEmails: seq<Permit>
    var users: seq<User>
    var favorites: seq<Favorite>
    var viewingHistory: seq<View>

    constructor ()
      ensures allowedEmails == [] && users == [] && favorites == [] && viewingHistory == []
    {
      allowedEmails, users, favorites, viewingHistory := [], [], [], [];
    }
  }

  /** `allowedEmails.findOne({ email })` finds a document. */
  predicate IsAllowed(allowed: seq<Permit>, email: string) {
    exists i :: 0 <= i < |allowed| && allowed[i].email == email
  }

  /** No two allow-list entries share an email. */
  ghost predicate PermitEmailsUnique(allowed: seq<Permit>) {
    forall i, j :: 0 <= i < j < |allowed| ==> allowed[i].email != allowed[j].email
  }

  /** `users.findOne({ email })`: the first user with that email. */
  function FindUserByEmail(users: seq<User>, email: string): (r: Option<User>)
    ensures r.None? <==> forall i :: 0 <= i < |users| ==> users[i].email != email
    ensures r.Some? ==> r.value in users && r.value.email == email
  {
    if users == [] then None
    else if users[0].email == email then Some(users[0])
    else FindUserByEmail(users[1..], email)
  }

  /** `users.findOne({ username })`: the first user with that username. */
  function FindUserByUsername(users: seq<User>, username: string): (r: Option<User>)
    ensures r.None? <==> forall i :: 0 <= i < |users| ==> users[i].username != Some(username)
    ensures r.Some? ==> r.value in users && r.value.username == Some(username)
  {
    if users == [] then None
    else if users[0].username == Some(username) then Some(users[0])
    else FindUserByUsername(users[1..], username)
  }

  /** `users.findOne({ username })` finds a document. */
  predicate UsernameTaken(users: seq<User>, username: string) {
    exists i :: 0 <= i < |users| && users[i].username == Some(username)
  }

  /** No two users share an email. */
  ghost predicate UserEmailsUnique(users: seq<User>) {
    forall i, j :: 0 <= i < j < |users| ==> users[i].email != users[j].email
  }

  /** No two users share a username. */
  ghost predicate UsernamesUnique(users: seq<User>) {
    forall i, j :: 0 <= i < j < |users| && users[i].username.Some? ==>
      users[i].username != users[j].username
  }

  /** Appending a user whose email and username nobody holds keeps both
      uniqueness invariants. */
  lemma AppendKeepsUnique(users: seq<User>, u: User)
    requires UsernamesUnique(users) && UserEmailsUnique(users)
    requires forall i :: 0 <= i < |users| ==> users[i].email != u.email
    requires u.username.Some? ==> !UsernameTaken(users, u.username.value)
    ensures UsernamesUnique(users + [u]) && UserEmailsUnique(users + [u])
  {
    var s := users + [u];
    forall i, j | 0 <= i < j < |s| && s[i].username.Some?
      ensures s[i].username != s[j].username
    {
      if j == |users| {
        assert s[i] == users[i];
      }
    }
  }
}
