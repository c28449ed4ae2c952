/** `GET` and `POST /api/permit-user` (app/api/permit-user/route.js): the
    invitations a user has made, and inviting a new email. */
module PermitRoute {
  import opened Wrappers
  import opened Text
  import opened Lists
  import opened Store

  function CreatedAt(p: Permit): int { p.createdAt }

  /** `find({ referringUsername })`: the allow-list entries made by a user,
      in collection order. */
  function Referrals(allowed: seq<Permit>, username: Option<string>): seq<Permit> {
    Filter(allowed, (p: Permit) => p.referringUsername == username)
  }

  /** The `GET` handler: the caller's invitations, newest first. */
  function Get(allowed: seq<Permit>, session: Option<Session>): (r: Listing<Permit>)
    ensures r.Unauthorized? <==> session.None?
    ensures r.Ok? ==> SortedDesc(r.items, CreatedAt)
    ensures r.Ok? ==> multiset(r.items) == multiset(Referrals(allowed, session.value.username))
    ensures r.Ok? ==> forall p :: p in r.items <==>
      p in allowed && p.referringUsername == session.value.username
  {
    if session.None? then Unauthorized
    else
      var items := SortDesc(Referrals(allowed, session.value.username), CreatedAt);
      assert forall p :: p in items <==> p in multiset(items);
      Ok(items)
  }

  /** The JSON body of a `POST`; a field the client leaves out is `None`. */
  datatype PermitBody = PermitBody(
    email: Option<string>,
    school: Option<string>,
    referringUsername: Option<string>)

  const Unauthorized401 := Response(401, "Unauthorized")
  const MissingFields := Response(400, "Missing required fields")
  const AlreadyPermitted := Response(400, "Email already has permission")
  const Granted := Response(200, "Permission granted")

  /** The `POST` handler. The stored `referringUsername` is the one in the
      body, not the session's. */
  method Post(db: Database, session: Option<Session>, body: PermitBody, now: int) returns (resp: Response)
    requires PermitEmailsUnique(db.allowedEmails)
    modifies db`allowedEmails
    ensures PermitEmailsUnique(db.allowedEmails)
    ensures session.None? ==> resp == Unauthorized401 && db.allowedEmails == old(db.allowedEmails)
    ensures session.Some? && !(Truthy(body.email) && Truthy(body.school)) ==>
      resp == MissingFields && db.allowedEmails == old(db.allowedEmails)
    ensures session.Some? && Truthy(body.email) && Truthy(body.school) &&
            IsAllowed(old(db.allowedEmails), body.email.value) ==>
      resp == AlreadyPermitted && db.allowedEmails == old(db.allowedEmails)
    ensures session.Some? && Truthy(body.email) && Truthy(body.school) &&
            !IsAllowed(old(db.allowedEmails), body.email.value) ==>
      resp == Granted &&
      db.allowedEmails == old(db.allowedEmails) +
        [Permit(body.email.value, body.school.value, body.referringUsername, now)]
  {
    if session.None? {
      return Unauthorized401;
    }
    if !Truthy(body.email) || !Truthy(body.school) {
      return MissingFields;
    }
    if IsAllowed(db.allowedEmails, body.email.value) {
      return AlreadyPermitted;
    }
    var entry := Permit(body.email.value, body.school.value, body.referringUsername, now);
    AppendKeepsPermitsUnique(db.allowedEmails, entry);
    db.allowedEmails := db.allowedEmails + [entry];
    return Granted;
  }

  /** Appending an entry for an email not yet on the list keeps emails
      unique. */
  lemma AppendKeepsPermitsUnique(allowed: seq<Permit>, p: Permit)
    requires PermitEmailsUnique(allowed)
    requires !IsAllowed(allowed, p.email)
    ensures PermitEmailsUnique(allowed + [p])
  {
    var s := allowed + [p];
    forall i, j | 0 <= i < j < |s| ensures s[i].email != s[j].email {
      assert s[i] == allowed[i];
    }
  }
}
