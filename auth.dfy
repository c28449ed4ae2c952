/** The next-auth configuration of lib/auth.js: the credentials provider's
    `authorize` and the `signIn`, `jwt` and `session` callbacks. */
module Auth {
  import opened Wrappers
  import opened Text
  import opened Store
  import opened CamelCase
  import opened Usernames
  import opened Lists

  /** What the credentials form submits. */
  datatype Credentials = Credentials(email: string, password: string)

  /** The user object `authorize` hands to next-auth (its `id` is the
      database's own `_id` and is not modelled). */
  datatype AuthUser = AuthUser(name: string, email: string, username: string)

  /** Why `authorize` throws. */
  datatype AuthError =
    | EmailNotAuthorized
    | NoUserFound
    | MissingPasswordHash   // the stored user has no password (a Google account)
    | IncorrectPassword
  {
    /** The message of the thrown error; for an absent digest it is the
        message node's `bcrypt.compare` rejects with. */
    function Message(): string {
      match this
      case EmailNotAuthorized => "Email not authorized"
      case NoUserFound => "No user found"
      case MissingPasswordHash => "data and hash arguments required"
      case IncorrectPassword => "Incorrect password"
    }
  }

  /** `authorize(credentials)`; `matches(password, digest)` stands for
      `bcrypt.compare`. */
  function Authorize(allowed: seq<Permit>, users: seq<User>, creds: Credentials,
                     matches: (string, string) -> bool): (r: Result<AuthUser, AuthError>)
    ensures r == Failure(EmailNotAuthorized) <==> !IsAllowed(allowed, creds.email)
    ensures r == Failure(NoUserFound) <==>
      IsAllowed(allowed, creds.email) && forall i :: 0 <= i < |users| ==> users[i].email != creds.email
    ensures r == Failure(MissingPasswordHash) <==>
      IsAllowed(allowed, creds.email) && FindUserByEmail(users, creds.email).Some? &&
      FindUserByEmail(users, creds.email).value.password.None?
    ensures r == Failure(IncorrectPassword) <==>
      IsAllowed(allowed, creds.email) && FindUserByEmail(users, creds.email).Some? &&
      var u := FindUserByEmail(users, creds.email).value;
      u.password.Some? && !matches(creds.password, u.password.value)
    ensures r.Success? ==>
      var u := FindUserByEmail(users, creds.email).value;
      u in users && u.password.Some? && matches(creds.password, u.password.value) &&
      r.value == AuthUser(OrElse(u.name, u.email), u.email,
                          OrElse(u.username, ToCamelCase(OrElse(u.name, u.email))))
  {
    if !IsAllowed(allowed, creds.email) then Failure(EmailNotAuthorized)
    else match FindUserByEmail(users, creds.email)
      case None => Failure(NoUserFound)
      case Some(u) =>
        if u.password.None? then Failure(MissingPasswordHash)
        else if !matches(creds.password, u.password.value) then Failure(IncorrectPassword)
        else
          var name := OrElse(u.name, u.email);
          Success(AuthUser(name, u.email, OrElse(u.username, ToCamelCase(name))))
  }

  /** A successful sign-in reports the credentials' own email, and a
      username that is the stored one or else consists of letters and
      digits only. */
  lemma AuthorizeUsername(allowed: seq<Permit>, users: seq<User>, creds: Credentials,
                          matches: (string, string) -> bool)
    requires Authorize(allowed, users, creds, matches).Success?
    ensures Authorize(allowed, users, creds, matches).value.email == creds.email
    ensures var stored := FindUserByEmail(users, creds.email).value.username;
      Truthy(stored) ==> Authorize(allowed, users, creds, matches).value.username == stored.value
    ensures var a := Authorize(allowed, users, creds, matches).value;
      !Truthy(FindUserByEmail(users, creds.email).value.username) ==>
      forall i :: 0 <= i < |a.username| ==> IsAlnum(a.username[i])
  {
    var u := FindUserByEmail(users, creds.email).value;
    CamelCaseAlnum(OrElse(u.name, u.email));
  }

  /** The part of an email before its first `@` (`email.split("@")[0]`). */
  function BeforeAt(email: string): (r: string)
    ensures |r| <= |email| && r == email[..|r|]
    ensures forall i :: 0 <= i < |r| ==> r[i] != '@'
    ensures |r| < |email| ==> email[|r|] == '@'
  {
    if email == [] || email[0] == '@' then [] else [email[0]] + BeforeAt(email[1..])
  }

  /** The signing-in Google profile; the callback writes its `username`. */
  class Profile {
    const email: string
    const name: Option<string>
    const image: Option<string>
    var username: Option<string>

    constructor (email: string, name: Option<string>, image: Option<string>)
      ensures this.email == email && this.name == name && this.image == image
      ensures username == None
    {
      this.email, this.name, this.image := email, name, image;
      username := None;
    }
  }

  /** The username base for a new Google account: the camel-cased display
      name, or the part of the email before the first "@" when the name is
      missing or empty. It has only ASCII letters and digits. */
  function GoogleBase(name: Option<string>, email: string): (r: string)
    ensures forall i :: 0 <= i < |r| ==> IsAlnum(r[i])
    ensures LowerAscii(r) == Filter(LowerAscii(OrElse(name, BeforeAt(email))), IsAlnum)
  {
    CamelCaseLetters(OrElse(name, BeforeAt(email)));
    CamelCaseAlnum(OrElse(name, BeforeAt(email)));
    ToCamelCase(OrElse(name, BeforeAt(email)))
  }

  /** The `signIn` callback. `provider` is `account?.provider`; a non-Google
      sign-in is always let through. */
  method SignIn(db: Database, user: Profile, provider: Option<string>, now: int) returns (ok: bool)
    requires UsernamesUnique(db.users) && UserEmailsUnique(db.users)
    modifies db`users, user`username
    ensures UsernamesUnique(db.users) && UserEmailsUnique(db.users)
    ensures provider != Some("google") ==>
      ok && db.users == old(db.users) && user.username == old(user.username)
    ensures provider == Some("google") && !IsAllowed(db.allowedEmails, user.email) ==>
      !ok && db.users == old(db.users) && user.username == old(user.username)
    ensures provider == Some("google") && IsAllowed(db.allowedEmails, user.email) &&
            FindUserByEmail(old(db.users), user.email).Some? ==>
      ok && db.users == old(db.users) &&
      user.username == FindUserByEmail(old(db.users), user.email).value.username
    ensures provider == Some("google") && IsAllowed(db.allowedEmails, user.email) &&
            FindUserByEmail(old(db.users), user.email).None? ==>
      ok &&
      (exists k :: 0 <= k <= |old(db.users)| &&
         FirstFree(old(db.users), GoogleBase(user.name, user.email), k) &&
         user.username == Some(Candidate(GoogleBase(user.name, user.email), k))) &&
      db.users == old(db.users) + [User(user.email, None, user.name, user.username, user.image, now)]
  {
    if provider != Some("google") {
      return true;
    }
    if !IsAllowed(db.allowedEmails, user.email) {
      return false;
    }
    var existing := FindUserByEmail(db.users, user.email);
    if existing.None? {
      var username := FreeUsername(db.users, GoogleBase(user.name, user.email));
      var record := User(user.email, None, user.name, Some(username), user.image, now);
      AppendKeepsUnique(db.users, record);
      db.users := db.users + [record];
      user.username := Some(username);
    } else {
      user.username := existing.value.username;
    }
    return true;
  }

  /** The signed-in user next-auth passes to `jwt` on sign-in. */
  datatype SignedIn = SignedIn(username: Option<string>)

  class Token {
    var username: Option<string>
    constructor ()
      ensures username == None
    {
      username := None;
    }
  }

  class SessionUser {
    var username: Option<string>
    constructor ()
      ensures username == None
    {
      username := None;
    }
  }

  /** The `jwt` callback: on sign-in the username goes into the token. */
  method Jwt(token: Token, user: Option<SignedIn>)
    modifies token
    ensures token.username == if user.Some? then user.value.username else old(token.username)
  {
    if user.Some? {
      token.username := user.value.username;
    }
  }

  /** The `session` callback: a present, non-empty token username goes
      into the session. */
  method SessionCallback(session: SessionUser, token: Token?)
    modifies session
    ensures token != null && Truthy(token.username) ==> session.username == token.username
    ensures !(token != null && Truthy(token.username)) ==> session.username == old(session.username)
  {
    if token != null && Truthy(token.username) {
      session.username := token.username;
    }
  }
}
