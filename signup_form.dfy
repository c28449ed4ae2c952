/** The signup form component components/SignupForm.js. */
module SignupForm {
  import opened Wrappers
  import opened SignupRoute

  const FirstYear := 1980

  /** The year-of-reception choices: `for (year = currentYear; year >= 1980;
      year--) yearOptions.push(year)`. */
  method YearOptions(currentYear: int) returns (options: seq<int>)
    ensures |options| == if currentYear >= FirstYear then currentYear - FirstYear + 1 else 0
    ensures forall i :: 0 <= i < |options| ==> options[i] == currentYear - i
    ensures forall i :: 0 <= i < |options| ==> FirstYear <= options[i] <= currentYear
  {
    options := [];
    var year := currentYear;
    while year >= FirstYear
      invariant year <= currentYear
      invariant currentYear >= FirstYear ==> year >= FirstYear - 1
      invariant currentYear < FirstYear ==> year == currentYear
      invariant |options| == currentYear - year
      invariant forall i :: 0 <= i < |options| ==> options[i] == currentYear - i
      decreases year
    {
      options := options + [year];
      year := year - 1;
    }
  }

  /** What the `fetch("/api/signup")` call came back with: an OK response,
      an error response with its body text, or a thrown error. */
  datatype Reply = Accepted | Refused(text: string) | Failed

  const SignupFallback := "Signup failed. Please try again."
  const NetworkFailure := "An error occurred. Please try again."
  const LoginRoute := "/?login=true"

  class Form {
    var email: string
    var password: string
    var name: string
    var school: string
    var yearOfReception: string
    var error: string
    var isLoading: bool
    /** Where `router.push` sent the browser, if anywhere. */
    var navigatedTo: Option<string>

    constructor ()
      ensures email == "" && password == "" && name == "" && school == "" && yearOfReception == ""
      ensures error == "" && !isLoading && navigatedTo == None
    {
      email, password, name, school, yearOfReception := "", "", "", "", "";
      error, isLoading, navigatedTo := "", false, None;
    }

    /** `handleSignup`: sends all five fields; on success goes to the login
        prompt, otherwise shows the response text or a fallback. */
    method HandleSignup(reply: Reply) returns (sent: SignupBody)
      modifies this`error, this`isLoading, this`navigatedTo
      ensures sent == SignupBody(email, password, name, school, yearOfReception)
      ensures !isLoading
      ensures reply.Accepted? ==> navigatedTo == Some(LoginRoute) && error == ""
      ensures reply.Refused? ==>
        navigatedTo == old(navigatedTo) && error == (if reply.text != "" then reply.text else SignupFallback)
      ensures reply.Failed? ==> navigatedTo == old(navigatedTo) && error == NetworkFailure
    {
      error := "";
      isLoading := true;
      sent := SignupBody(email, password, name, school, yearOfReception);
      if reply.Accepted? {
        navigatedTo := Some(LoginRoute);
      } else if reply.Refused? {
        error := if reply.text != "" then reply.text else SignupFallback;
      } else {
        error := NetworkFailure;
      }
      isLoading := false;
    }
  }
}
