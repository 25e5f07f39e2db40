/**
 * Sign-up on the authentication page (src/pages/Auth.tsx): the
 * university-email rule and the ordered guards in front of the sign-up call.
 */
module Auth {
  import opened Wrappers
  import opened JsString

  /** The e-mail domains accepted for sign-up. */
  const UniversityDomains: seq<string> := [
    "uc.cl", "uchile.cl", "usach.cl", "uv.cl", "udec.cl", "puc.cl",
    "uai.cl", "udd.cl", "unab.cl", "udp.cl", "usm.cl", "utfsm.cl",
    "uach.cl", "ufro.cl", "ucn.cl", "uct.cl", "ubo.cl", "utem.cl"]

  /** The shortest password accepted. */
  const MinPasswordLength := 6

  /**
   * `email.split('@')[1]`: the text between the first `@` and the next one
   * (or the end); `undefined` when there is no `@`.
   */
  function EmailDomain(email: string): (d: Option<string>)
    ensures d.None? <==> '@' !in email
    ensures d.Some? ==>
      var rest := email[IndexOf(email, '@') + 1..];
      '@' !in d.value && d.value == (if '@' in rest then rest[..IndexOf(rest, '@')] else rest)
  {
    var parts := Split(email, '@');
    if |parts| >= 2 then
      DomainIsSecondPiece(email);
      Some(parts[1])
    else
      None
  }

  lemma DomainIsSecondPiece(email: string)
    ensures |Split(email, '@')| >= 2 <==> '@' in email
    ensures '@' in email ==>
      var rest := email[IndexOf(email, '@') + 1..];
      Split(email, '@')[1] == (if '@' in rest then rest[..IndexOf(rest, '@')] else rest)
  {
    if '@' in email {
      var i := IndexOf(email, '@');
      var rest := email[i + 1..];
      assert Split(email, '@') == [email[..i]] + Split(rest, '@');
      if '@' in rest {
        SplitFirst(rest, '@');
      }
    }
  }

  /** `isUniversityEmail(email)`: the domain is one of the listed ones, exactly as written. */
  predicate IsUniversityEmail(email: string) {
    var d := EmailDomain(email);
    d.Some? && d.value in UniversityDomains
  }

  /** An address `local@domain` with one `@` is accepted exactly when `domain` is listed, letter for letter. */
  lemma UniversityEmailIffListed(local: string, domain: string)
    requires '@' !in local && '@' !in domain
    ensures IsUniversityEmail(local + "@" + domain) <==> domain in UniversityDomains
  {
    var email := local + "@" + domain;
    assert email[..|local|] == local && email[|local|] == '@';
    IndexOfUnique(email, '@', |local|);
    assert email[|local| + 1..] == domain;
  }

  /** The list holds eighteen domains, every one of them under `.cl`. */
  lemma ListedDomainsShape()
    ensures |UniversityDomains| == 18
    ensures forall k :: 0 <= k < |UniversityDomains| ==>
      |UniversityDomains[k]| > 3 && UniversityDomains[k][|UniversityDomains[k]| - 3..] == ".cl"
  {
  }

  /** Subdomains are not recognised: `alumnos.uc.cl` is refused. */
  lemma SubdomainRefused(local: string, domain: string)
    requires '@' !in local && domain == "alumnos.uc.cl"
    ensures !IsUniversityEmail(local + "@" + domain)
  {
    assert |domain| == 13;
    assert domain !in UniversityDomains by { ListedDomainsShape(); }
    assert '@' !in domain;
    UniversityEmailIffListed(local, domain);
  }

  /** The comparison is case-sensitive: `UC.CL` is refused. */
  lemma CapitalsRefused(local: string, domain: string)
    requires '@' !in local && domain == "UC.CL"
    ensures !IsUniversityEmail(local + "@" + domain)
  {
    assert domain[0] == 'U';
    assert domain !in UniversityDomains by { ListedDomainsShape(); }
    assert '@' !in domain;
    UniversityEmailIffListed(local, domain);
  }

  /** Only the piece after the first `@` is looked at: whatever follows a second `@` is ignored. */
  lemma SecondAtIgnored(local: string, domain: string, tail: string)
    requires '@' !in local && '@' !in domain
    ensures IsUniversityEmail(local + "@" + domain + "@" + tail) <==> domain in UniversityDomains
  {
    var email := local + "@" + domain + "@" + tail;
    var rest := domain + "@" + tail;
    assert email[..|local|] == local && email[|local|] == '@' && email[|local| + 1..] == rest by {
      assert email == local + "@" + rest;
    }
    IndexOfUnique(email, '@', |local|);
    assert rest[..|domain|] == domain && rest[|domain|] == '@';
    IndexOfUnique(rest, '@', |domain|);
    assert EmailDomain(email) == Some(domain);
  }

  /** Where `handleSignUp` stops, in the order its checks run. */
  datatype SignUpCheck =
    | AlreadySignedIn      // the page redirects to `/` and no form is shown
    | NotUniversityEmail
    | PasswordMismatch
    | PasswordTooShort
    | Proceed

  /** The guards of `handleSignUp`, first failure wins. */
  function CheckSignUp(signedIn: bool, email: string, password: string, confirmPassword: string): (c: SignUpCheck)
    ensures c == AlreadySignedIn <==> signedIn
    ensures c == NotUniversityEmail <==> !signedIn && !IsUniversityEmail(email)
    ensures c == PasswordMismatch <==> !signedIn && IsUniversityEmail(email) && password != confirmPassword
    ensures c == PasswordTooShort <==>
      !signedIn && IsUniversityEmail(email) && password == confirmPassword && |password| < MinPasswordLength
    ensures c == Proceed <==>
      !signedIn && IsUniversityEmail(email) && password == confirmPassword && |password| >= MinPasswordLength
  {
    if signedIn then AlreadySignedIn
    else if !IsUniversityEmail(email) then NotUniversityEmail
    else if password != confirmPassword then PasswordMismatch
    else if |password| < MinPasswordLength then PasswordTooShort
    else Proceed
  }

  /** The sign-up call: address, password and the `full_name` metadata. */
  datatype SignUpRequest = SignUpRequest(email: string, password: string, fullName: string)

  /** What the sign-up call gave back. */
  datatype SignUpResponse = Registered | Refused(message: string) | Threw

  /** The sign-up form's state and the sign-up calls it has made. */
  class SignUpForm {
    var email: string
    var password: string
    var confirmPassword: string
    var fullName: string
    var loading: bool
    var requests: seq<SignUpRequest>

    constructor ()
      ensures email == "" && password == "" && confirmPassword == "" && fullName == ""
      ensures !loading && requests == []
    {
      email, password, confirmPassword, fullName := "", "", "", "";
      loading := false;
      requests := [];
    }

    /**
     * `handleSignUp`. A failed guard changes nothing; otherwise the form
     * asks to sign up with its fields and clears the four fields only when
     * the call succeeds. `loading` is back to false at the end.
     */
    method HandleSignUp(signedIn: bool, response: SignUpResponse) returns (c: SignUpCheck)
      modifies this
      ensures c == CheckSignUp(signedIn, old(email), old(password), old(confirmPassword))
      ensures c != Proceed ==>
        email == old(email) && password == old(password) && confirmPassword == old(confirmPassword) &&
        fullName == old(fullName) && loading == old(loading) && requests == old(requests)
      ensures c == Proceed ==>
        requests == old(requests) + [SignUpRequest(old(email), old(password), old(fullName))] && !loading
      ensures c == Proceed && response.Registered? ==>
        email == "" && password == "" && confirmPassword == "" && fullName == ""
      ensures c == Proceed && !response.Registered? ==>
        email == old(email) && password == old(password) &&
        confirmPassword == old(confirmPassword) && fullName == old(fullName)
    {
      c := CheckSignUp(signedIn, email, password, confirmPassword);
      if c != Proceed {
        return;
      }
      loading := true;
      requests := requests + [SignUpRequest(email, password, fullName)];
      if response.Registered? {
        email, password, confirmPassword, fullName := "", "", "", "";
      }
      loading := false;
    }
  }
}
