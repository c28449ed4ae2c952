/** The invitation page app/permit-users/page.js: `formatSchoolName`, the
    postcode field and the submit handler. */
module PermitUsersPage {
  import opened Wrappers
  import opened Text
  import opened Lists
  import opened PermitRoute

  // ---------------------------------------------------------------------
  // formatSchoolName

  predicate NotApostrophe(c: char) { c != '\'' }

  /** `.replace(/\b\w/g, c => c.toUpperCase())` on the rest `s` of a string
      whose previous character was a word character exactly when `prev`. */
  function ProperCase(prev: bool, s: string): (r: string)
    ensures |r| == |s|
    ensures forall i :: 0 <= i < |s| ==> IsWordChar(r[i]) == IsWordChar(s[i])
    decreases |s|
  {
    if s == [] then []
    else
      var c := s[0];
      [if !prev && IsWordChar(c) then ToUpperChar(c) else c] + ProperCase(IsWordChar(c), s[1..])
  }

  /** A whole word "saint", in any case, starts at `s[0]`; `prev` says
      whether the character before it is a word character. */
  predicate SaintHere(prev: bool, s: string) {
    !prev && |s| >= 5 &&
    ToLowerChar(s[0]) == 's' && ToLowerChar(s[1]) == 'a' && ToLowerChar(s[2]) == 'i' &&
    ToLowerChar(s[3]) == 'n' && ToLowerChar(s[4]) == 't' &&
    (|s| == 5 || !IsWordChar(s[5]))
  }

  /** `.replace(/\bSaint\b/gi, "St")`, scanning left to right. */
  function ReplaceSaint(prev: bool, s: string): (r: string)
    ensures |r| <= |s|
    decreases |s|
  {
    if s == [] then []
    else if SaintHere(prev, s) then "St" + ReplaceSaint(true, s[5..])
    else [s[0]] + ReplaceSaint(IsWordChar(s[0]), s[1..])
  }

  /** `formatSchoolName(name)`. */
  function FormatSchoolName(name: Option<string>): (r: string)
    ensures !Truthy(name) ==> r == ""
    ensures Truthy(name) ==> |r| <= |name.value|
  {
    if !Truthy(name) then ""
    else ReplaceSaint(false, ProperCase(false, LowerAscii(Filter(name.value, NotApostrophe))))
  }

  // Apostrophes and length

  lemma {:induction false} ProperCaseKeeps(prev: bool, s: string, c: char)
    requires c != ' ' && !IsWordChar(c) && c !in s
    ensures c !in ProperCase(prev, s)
    decreases |s|
  {
    if s != [] {
      ProperCaseKeeps(IsWordChar(s[0]), s[1..], c);
    }
  }

  lemma {:induction false} ReplaceSaintKeeps(prev: bool, s: string, c: char)
    requires c != 'S' && c != 't' && c !in s
    ensures c !in ReplaceSaint(prev, s)
    decreases |s|
  {
    if s != [] {
      if SaintHere(prev, s) {
        ReplaceSaintKeeps(true, s[5..], c);
      } else {
        ReplaceSaintKeeps(IsWordChar(s[0]), s[1..], c);
      }
    }
  }

  /** The result has no apostrophe and is never longer than the name; a
      missing or empty name gives "". */
  lemma FormatSchoolNameShape(name: Option<string>)
    ensures '\'' !in FormatSchoolName(name)
    ensures |FormatSchoolName(name)| <= |OrElse(name, "")|
    ensures !Truthy(name) ==> FormatSchoolName(name) == ""
  {
    if Truthy(name) {
      var a := Filter(name.value, NotApostrophe);
      var b := LowerAscii(a);
      assert '\'' !in b;
      ProperCaseKeeps(false, b, '\'');
      ReplaceSaintKeeps(false, ProperCase(false, b), '\'');
    }
  }

  // Letter case

  /** Every letter of `r` is upper-case exactly when it starts a word (the
      character before it, `prev` for the first one, is not a word
      character). */
  predicate CasedFrom(prev: bool, r: string)
    decreases |r|
  {
    r == [] ||
    ((IsLetter(r[0]) ==> (IsUpper(r[0]) <==> !prev)) && CasedFrom(IsWordChar(r[0]), r[1..]))
  }

  predicate NoUpper(s: string) {
    forall i :: 0 <= i < |s| ==> !IsUpper(s[i])
  }

  lemma {:induction false} ProperCaseCased(prev: bool, s: string)
    requires NoUpper(s)
    ensures CasedFrom(prev, ProperCase(prev, s))
    decreases |s|
  {
    if s != [] {
      ProperCaseCased(IsWordChar(s[0]), s[1..]);
    }
  }

  lemma {:induction false} ReplaceSaintCased(prev: bool, s: string)
    requires CasedFrom(prev, s)
    ensures CasedFrom(prev, ReplaceSaint(prev, s))
    decreases |s|
  {
    if s != [] {
      if SaintHere(prev, s) {
        CasedSkip(prev, s, 5);
        ReplaceSaintCased(true, s[5..]);
        var rest := ReplaceSaint(true, s[5..]);
        assert ("St" + rest)[1..] == ['t'] + rest;
        assert (['t'] + rest)[1..] == rest;
      } else {
        ReplaceSaintCased(IsWordChar(s[0]), s[1..]);
      }
    }
  }

  /** Dropping `k` characters of a cased string leaves a cased string. */
  lemma {:induction false} CasedSkip(prev: bool, s: string, k: nat)
    requires CasedFrom(prev, s) && 0 < k <= |s|
    ensures CasedFrom(IsWordChar(s[k - 1]), s[k..])
    decreases |s|
  {
    if k > 1 {
      CasedSkip(IsWordChar(s[0]), s[1..], k - 1);
      assert s[1..][k - 1..] == s[k..];
    }
  }

  lemma {:induction false} CasedAt(prev: bool, r: string, i: nat)
    requires CasedFrom(prev, r) && i < |r| && IsLetter(r[i])
    ensures IsUpper(r[i]) <==> !(if i == 0 then prev else IsWordChar(r[i - 1]))
    decreases |r|
  {
    if i > 0 {
      CasedAt(IsWordChar(r[0]), r[1..], i - 1);
      if i > 1 {
        assert r[1..][i - 2] == r[i - 1];
      }
    }
  }

  /** In the result, a letter is upper-case exactly when it begins a word:
      the first letter of every word is capitalised and every other letter
      is lower-case. */
  lemma FormatSchoolNameCase(name: Option<string>)
    ensures var r := FormatSchoolName(name);
      forall i :: 0 <= i < |r| && IsLetter(r[i]) ==>
        (IsUpper(r[i]) <==> (i == 0 || !IsWordChar(r[i - 1])))
  {
    if Truthy(name) {
      var b := LowerAscii(Filter(name.value, NotApostrophe));
      ProperCaseCased(false, b);
      ReplaceSaintCased(false, ProperCase(false, b));
      var r := FormatSchoolName(name);
      forall i | 0 <= i < |r| && IsLetter(r[i])
        ensures IsUpper(r[i]) <==> (i == 0 || !IsWordChar(r[i - 1]))
      {
        CasedAt(false, r, i);
      }
    }
  }

  // No whole word "saint" remains

  /** No whole word "saint" starts anywhere in `r`. */
  predicate NoSaintFrom(prev: bool, r: string)
    decreases |r|
  {
    r == [] || (!SaintHere(prev, r) && NoSaintFrom(IsWordChar(r[0]), r[1..]))
  }

  /** After a word character, the replacement copies the rest of that word
      and the character ending it unchanged. */
  lemma {:induction false} ReplaceCopiesWord(s: string, k: nat)
    requires k <= |s| && forall j :: 0 <= j < k ==> IsWordChar(s[j])
    ensures |ReplaceSaint(true, s)| >= k && ReplaceSaint(true, s)[..k] == s[..k]
    ensures k < |s| && !IsWordChar(s[k]) ==> |ReplaceSaint(true, s)| > k && ReplaceSaint(true, s)[k] == s[k]
    ensures k == |s| ==> ReplaceSaint(true, s) == s
  {
    if k > 0 {
      ReplaceCopiesWord(s[1..], k - 1);
      assert ReplaceSaint(true, s) == [s[0]] + ReplaceSaint(true, s[1..]);
    } else if s != [] {
      assert ReplaceSaint(true, s) == [s[0]] + ReplaceSaint(IsWordChar(s[0]), s[1..]);
    }
  }

  /** When no whole word "saint" starts at `s[0]`, none starts at the first
      character of the replacement either. */
  lemma NoSaintAtHead(prev: bool, s: string)
    requires s != [] && !SaintHere(prev, s)
    ensures !SaintHere(prev, [s[0]] + ReplaceSaint(IsWordChar(s[0]), s[1..]))
  {
    var rest := ReplaceSaint(IsWordChar(s[0]), s[1..]);
    var out := [s[0]] + rest;
    if !prev && IsWordChar(s[0]) && |out| >= 5 {
      var t := s[1..];
      if |t| >= 4 && IsWordChar(t[0]) && IsWordChar(t[1]) && IsWordChar(t[2]) && IsWordChar(t[3]) {
        if |t| == 4 {
          ReplaceCopiesWord(t, 4);
        } else if IsWordChar(t[4]) {
          ReplaceCopiesWord(t, 5);
          assert rest[..4] == rest[..5][..4] && t[..4] == t[..5][..4];
          assert out[5] == t[4];
        } else {
          ReplaceCopiesWord(t, 4);
          assert out[5] == t[4];
        }
        assert rest[..4] == t[..4];
        forall m | 1 <= m < 5 ensures out[m] == s[m] {
          assert out[m] == rest[m - 1] && rest[m - 1] == t[m - 1];
        }
      } else {
        var j :| 0 <= j < 4 && j < |t| && !IsWordChar(t[j]) && forall m :: 0 <= m < j ==> IsWordChar(t[m]);
        ReplaceCopiesWord(t, j);
        assert out[j + 1] == t[j];
      }
    }
  }

  lemma {:induction false} ReplaceSaintNoSaint(prev: bool, s: string)
    ensures NoSaintFrom(prev, ReplaceSaint(prev, s))
    decreases |s|
  {
    if s != [] {
      if SaintHere(prev, s) {
        var rest := ReplaceSaint(true, s[5..]);
        ReplaceSaintNoSaint(true, s[5..]);
        assert ("St" + rest)[1..] == ['t'] + rest;
        assert (['t'] + rest)[1..] == rest;
      } else {
        ReplaceSaintNoSaint(IsWordChar(s[0]), s[1..]);
        NoSaintAtHead(prev, s);
      }
    }
  }

  lemma {:induction false} NoSaintAt(prev: bool, r: string, i: nat)
    requires NoSaintFrom(prev, r) && i < |r|
    ensures !SaintHere(if i == 0 then prev else IsWordChar(r[i - 1]), r[i..])
    decreases |r|
  {
    if i > 0 {
      NoSaintAt(IsWordChar(r[0]), r[1..], i - 1);
      assert r[1..][i - 1..] == r[i..];
      if i > 1 {
        assert r[1..][i - 2] == r[i - 1];
      }
    }
  }

  /** No whole word "saint", in any case, is left anywhere in the result. */
  lemma FormatSchoolNameNoSaint(name: Option<string>)
    ensures var r := FormatSchoolName(name);
      forall i :: 0 <= i < |r| ==> !SaintHere(i > 0 && IsWordChar(r[i - 1]), r[i..])
  {
    if Truthy(name) {
      var b := ProperCase(false, LowerAscii(Filter(name.value, NotApostrophe)));
      ReplaceSaintNoSaint(false, b);
      var r := FormatSchoolName(name);
      forall i | 0 <= i < |r| ensures !SaintHere(i > 0 && IsWordChar(r[i - 1]), r[i..]) {
        NoSaintAt(false, r, i);
      }
    }
  }

  // ---------------------------------------------------------------------
  // The form

  const PostcodeTooLong := "Please enter only the first part of the postcode (max 4 characters)"
  const GrantedMessage := "Permission Granted"
  const RefusedFallback := "Failed to grant permission"
  const NetworkFailure := "An error occurred. Please try again."

  /** The school sent: for "other", the formatted custom name followed by
      the upper-cased postcode in brackets; a listed school as it is. */
  function FinalSchool(school: string, customSchool: string, postcode: string): (r: string)
    ensures school == "other" ==>
      r == FormatSchoolName(Some(customSchool)) + " (" + UpperAscii(postcode) + ")"
    ensures school != "other" ==> r == school
  {
    if school == "other" then FormatSchoolName(Some(customSchool)) + " (" + UpperAscii(postcode) + ")"
    else school
  }

  /** What `fetch("/api/permit-user")` came back with: an OK response, an
      error response with its JSON `message`, or a failure (the request or
      the JSON parsing threw). */
  datatype Reply = Accepted | Refused(message: Option<string>) | Failed

  class PermitForm {
    var email: string
    var school: string
    var customSchool: string
    var schoolPostcode: string
    var postcodeError: string
    var message: Option<string>
    var error: Option<string>
    var isLoading: bool

    constructor ()
      ensures email == "" && school == "" && customSchool == "" && schoolPostcode == ""
      ensures postcodeError == "" && message == None && error == None && !isLoading
    {
      email, school, customSchool, schoolPostcode := "", "", "", "";
      postcodeError, message, error, isLoading := "", None, None, false;
    }

    /** `handlePostcodeChange`: the field is kept upper-case, and the error
        shows exactly while it is longer than four characters. */
    method HandlePostcodeChange(value: string)
      modifies this`schoolPostcode, this`postcodeError
      ensures schoolPostcode == UpperAscii(value)
      ensures postcodeError == if |value| > 4 then PostcodeTooLong else ""
    {
      schoolPostcode := UpperAscii(value);
      if |schoolPostcode| > 4 {
        postcodeError := PostcodeTooLong;
      } else {
        postcodeError := "";
      }
    }

    /** `handleSubmit`. `username` is `session?.user?.username`; `sent` is
        the request body, `None` when the postcode check stopped the
        submission before any request. */
    method HandleSubmit(username: Option<string>, reply: Reply) returns (sent: Option<PermitBody>)
      modifies this
      ensures old(school) == "other" && |old(schoolPostcode)| > 4 ==>
        sent.None? && postcodeError == PostcodeTooLong && error == None && message == None &&
        email == old(email) && school == old(school) && customSchool == old(customSchool) &&
        schoolPostcode == old(schoolPostcode) && isLoading == old(isLoading)
      ensures !(old(school) == "other" && |old(schoolPostcode)| > 4) ==>
        sent == Some(PermitBody(Some(old(email)),
                                Some(FinalSchool(old(school), old(customSchool), old(schoolPostcode))),
                                username)) &&
        !isLoading && postcodeError == old(postcodeError)
      ensures sent.Some? && reply.Accepted? ==>
        message == Some(GrantedMessage) && error == None &&
        email == "" && school == "" && customSchool == "" && schoolPostcode == ""
      ensures sent.Some? && reply.Refused? ==>
        message == None && error == Some(OrElse(reply.message, RefusedFallback)) &&
        email == old(email) && school == old(school) && customSchool == old(customSchool) &&
        schoolPostcode == old(schoolPostcode)
      ensures sent.Some? && reply.Failed? ==>
        message == None && error == Some(NetworkFailure) &&
        email == old(email) && school == old(school) && customSchool == old(customSchool) &&
        schoolPostcode == old(schoolPostcode)
    {
      error := None;
      message := None;
      if school == "other" && |schoolPostcode| > 4 {
        postcodeError := PostcodeTooLong;
        return None;
      }
      isLoading := true;
      var finalSchool := FinalSchool(school, customSchool, schoolPostcode);
      sent := Some(PermitBody(Some(email), Some(finalSchool), username));
      if reply.Accepted? {
        message := Some(GrantedMessage);
        email, school, customSchool, schoolPostcode := "", "", "", "";
      } else if reply.Refused? {
        error := Some(OrElse(reply.message, RefusedFallback));
      } else {
        error := Some(NetworkFailure);
      }
      isLoading := false;
    }
  }
}
