/** The stand-alone signup page app/signup/page.js. Its year-of-reception
    loop is the same as the signup form's (`SignupForm.YearOptions`). */
module SignupPage {
  import opened Wrappers
  import opened SignupRoute

  const SuccessAlert := "Signup successful! You can now log in."
  const LoginPath := "/login"

  /** The page's five controlled inputs. */
  datatype Fields = Fields(email: string, password: string, name: string, school: string, yearOfReception: string)

  /** How the `POST /api/signup` request ends: an ok response, a non-ok
      response with its body text, or a rejected `fetch`. */
  datatype Reply = Accepted | Refused(text: string) | Failed

  /** What `handleSignup` does: the body it sends, the alert it shows and
      where it navigates. */
  datatype Outcome = Outcome(sent: SignupBody, alert: Option<string>, navigatedTo: Option<string>)

  /** `handleSignup`. The handler has no `try`/`catch`, so a rejected
      `fetch` stops it before any alert or navigation. */
  function HandleSignup(f: Fields, reply: Reply): (o: Outcome)
    ensures o.sent == SignupBody(f.email, f.password, f.name, f.school, f.yearOfReception)
    ensures reply.Accepted? ==> o.alert == Some(SuccessAlert) && o.navigatedTo == Some(LoginPath)
    ensures reply.Refused? ==> o.alert == Some(reply.text) && o.navigatedTo == None
    ensures reply.Failed? ==> o.alert == None && o.navigatedTo == None
    ensures o.navigatedTo.Some? <==> reply.Accepted?
  {
    var body := SignupBody(f.email, f.password, f.name, f.school, f.yearOfReception);
    match reply
    case Accepted => Outcome(body, Some(SuccessAlert), Some(LoginPath))
    case Refused(text) => Outcome(body, Some(text), None)
    case Failed => Outcome(body, None, None)
  }
}
