/** `POST /api/signup` (app/api/signup/route.js). The route's own copy of
    `toCamelCase` is identical to the one in lib/auth.js and is modelled by
    `CamelCase.ToCamelCase`. */
module SignupRoute {
  import opened Wrappers
  import opened Store
  import opened CamelCase
  import opened Usernames

  /** The JSON body the signup forms send. */
  datatype SignupBody = SignupBody(
    email: string,
    password: string,
    name: string,
    school: string,
    yearOfReception: string)

  const NotAllowed := Response(403, "Email is not allowed to register.")
  const AlreadyExists := Response(400, "Email already exists")
  const Created := Response(201, "User created")

  /** The route handler. `hash` stands for `bcrypt.hash(password, 10)`.
      Only `email`, `password` and `name` of the body are read. */
  method Post(db: Database, body: SignupBody, hash: string -> string, now: int) returns (resp: Response)
    requires UsernamesUnique(db.users) && UserEmailsUnique(db.users)
    modifies db`users
    ensures UsernamesUnique(db.users) && UserEmailsUnique(db.users)
    ensures !IsAllowed(db.allowedEmails, body.email) ==>
      resp == NotAllowed && db.users == old(db.users)
    ensures IsAllowed(db.allowedEmails, body.email) && FindUserByEmail(old(db.users), body.email).Some? ==>
      resp == AlreadyExists && db.users == old(db.users)
    ensures IsAllowed(db.allowedEmails, body.email) && FindUserByEmail(old(db.users), body.email).None? ==>
      resp == Created &&
      exists k :: 0 <= k <= |old(db.users)| && FirstFree(old(db.users), ToCamelCase(body.name), k) &&
        db.users == old(db.users) +
          [User(body.email, Some(hash(body.password)), Some(body.name),
                Some(Candidate(ToCamelCase(body.name), k)), None, now)]
  {
    if !IsAllowed(db.allowedEmails, body.email) {
      return NotAllowed;
    }
    if FindUserByEmail(db.users, body.email).Some? {
      return AlreadyExists;
    }
    var username := FreeUsername(db.users, ToCamelCase(body.name));
    var record := User(body.email, Some(hash(body.password)), Some(body.name), Some(username), None, now);
    AppendKeepsUnique(db.users, record);
    db.users := db.users + [record];
    return Created;
  }
}
