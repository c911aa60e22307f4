/**
 * The field checks of the sign-up and login forms, and the rule that the
 * authentication request is made only when every check passes. Each check
 * either accepts its field or yields the message shown under it.
 */
module AuthValidation {
  import opened Wrappers
  import Text

  // ------------------------------------------------------------ the email pattern

  /** Characters allowed before the '@': ASCII letters and digits, and `+ _ . -`. */
  predicate IsLocalChar(c: char) {
    IsAsciiAlnum(c) || c == '+' || c == '_' || c == '.' || c == '-'
  }

  /** Characters allowed after the '@': ASCII letters and digits, and `. -`. */
  predicate IsDomainChar(c: char) {
    IsAsciiAlnum(c) || c == '.' || c == '-'
  }

  predicate IsAsciiAlnum(c: char) {
    ('a' <= c <= 'z') || ('A' <= c <= 'Z') || ('0' <= c <= '9')
  }

  /**
   * The whole-string pattern `^[A-Za-z0-9+_.-]+@[A-Za-z0-9.-]+$`, stated as
   * the split it describes: a non-empty local part, one '@', a non-empty
   * domain part.
   */
  ghost predicate EmailShape(s: string) {
    exists k :: 0 < k < |s| - 1 && s[k] == '@'
      && (forall i :: 0 <= i < k ==> IsLocalChar(s[i]))
      && (forall i :: k < i < |s| ==> IsDomainChar(s[i]))
  }

  /**
   * A matcher for the email pattern: the local part ends at the first '@'
   * since '@' is not a local character.
   */
  function MatchesEmail(s: string): (r: bool)
    ensures r <==> EmailShape(s)
  {
    match Text.IndexOf(s, '@')
    case None =>
      assert !EmailShape(s);
      false
    case Some(k) =>
      var r := 0 < k < |s| - 1
        && (forall i :: 0 <= i < k ==> IsLocalChar(s[i]))
        && (forall i :: k < i < |s| ==> IsDomainChar(s[i]));
      assert EmailShape(s) ==> r by {
        if EmailShape(s) {
          var j :| 0 < j < |s| - 1 && s[j] == '@'
            && (forall i :: 0 <= i < j ==> IsLocalChar(s[i]))
            && (forall i :: j < i < |s| ==> IsDomainChar(s[i]));
          assert forall i :: 0 <= i < k ==> s[..k][i] == s[i];
          assert !IsLocalChar('@');
        }
      }
      r
  }

  /** A string the pattern accepts holds exactly one '@', with something on both sides of it. */
  lemma MatchedEmailHasOneAt(s: string)
    requires MatchesEmail(s)
    ensures exists k :: 0 < k < |s| - 1 && s[k] == '@' && '@' !in s[..k] && '@' !in s[k + 1..]
  {
    var k :| 0 < k < |s| - 1 && s[k] == '@'
      && (forall i :: 0 <= i < k ==> IsLocalChar(s[i]))
      && (forall i :: k < i < |s| ==> IsDomainChar(s[i]));
    var head := s[..k];
    var tail := s[k + 1..];
    assert forall i :: 0 <= i < |head| ==> head[i] == s[i];
    assert forall i :: 0 <= i < |tail| ==> tail[i] == s[k + 1 + i];
  }

  /** A non-empty local part, an '@' and a non-empty domain part, each of allowed characters, match. */
  lemma AcceptSplit(local: string, domain: string)
    requires local != [] && domain != []
    requires forall i :: 0 <= i < |local| ==> IsLocalChar(local[i])
    requires forall i :: 0 <= i < |domain| ==> IsDomainChar(domain[i])
    ensures MatchesEmail(local + "@" + domain)
  {
    var s := local + "@" + domain;
    assert s[|local|] == '@';
    assert forall i :: 0 <= i < |local| ==> s[i] == local[i];
    assert forall i :: |local| < i < |s| ==> s[i] == domain[i - |local| - 1];
  }

  /** A character of the domain part outside the domain set makes the pattern fail. */
  lemma RejectInDomain(local: string, domain: string, i: int)
    requires '@' !in local
    requires 0 <= i < |domain| && !IsDomainChar(domain[i])
    ensures !MatchesEmail(local + "@" + domain)
  {
    var s := local + "@" + domain;
    assert s == local + ['@'] + domain;
    Text.IndexOfConcat(local, '@', domain);
    assert s[|local| + 1 + i] == domain[i];
  }

  /** A character of the local part outside the local set makes the pattern fail. */
  lemma RejectInLocal(local: string, domain: string, i: int)
    requires '@' !in local
    requires 0 <= i < |local| && !IsLocalChar(local[i])
    ensures !MatchesEmail(local + "@" + domain)
  {
    var s := local + "@" + domain;
    assert s == local + ['@'] + domain;
    Text.IndexOfConcat(local, '@', domain);
    assert s[i] == local[i];
  }

  /** '+' is accepted before the '@', and the domain needs no dot. */
  lemma ValidEmailExamples()
    ensures MatchesEmail("user+tag@example.com")
    ensures MatchesEmail("a@b")
  {
    AcceptSplit("user+tag", "example.com");
    assert "user+tag" + "@" + "example.com" == "user+tag@example.com";
    AcceptSplit("a", "b");
    assert "a" + "@" + "b" == "a@b";
  }

  /** '_' is not accepted after the '@': "user@my_host.com" is rejected. */
  lemma UnderscoreInDomainRejected(local: string, domain: string)
    requires local == "user" && domain == "my_host.com"
    ensures !MatchesEmail(local + "@" + domain)
  {
    RejectInDomain(local, domain, 2);
  }

  /** A space before the '@' is rejected: "user name@example.com". */
  lemma SpaceInLocalRejected(local: string, domain: string)
    requires local == "user name" && domain == "example.com"
    ensures !MatchesEmail(local + "@" + domain)
  {
    RejectInLocal(local, domain, 4);
  }

  /** A trailing space is rejected, as the field is not trimmed before the check: "user@example.com ". */
  lemma TrailingSpaceRejected(local: string, domain: string)
    requires local == "user" && domain == "example.com "
    ensures !MatchesEmail(local + "@" + domain)
  {
    RejectInDomain(local, domain, 11);
  }

  /** Both sides of the '@' must be non-empty. */
  lemma EmptySideRejected()
    ensures !MatchesEmail("@example.com")
    ensures !MatchesEmail("user@")
  {
    Text.IndexOfConcat("", '@', "example.com");
    assert "" + ['@'] + "example.com" == "@example.com";
    Text.IndexOfConcat("user", '@', "");
    assert "user" + ['@'] + "" == "user@";
  }

  // --------------------------------------------------------------- field checks

  /** Outcome of one field check: accepted, or the message shown under the field. */
  datatype Check = Ok | Error(message: string)
  {
    predicate Passed() { this == Ok }
  }

  const NameRequired := "Name is required"
  const EmailRequired := "Email is required"
  const EmailInvalid := "Please enter a valid email"
  const PasswordRequired := "Password is required"
  const PasswordTooShort := "Password must be at least 6 characters"
  const ConfirmRequired := "Confirm password is required"
  const PasswordsDiffer := "Passwords do not match"

  /** Shortest accepted password. */
  const MinPasswordLength := 6

  /** `validateName`: a name that trims to nothing, i.e. only whitespace, is rejected. */
  function ValidateName(name: string): (r: Check)
    ensures r.Passed() <==> !Text.IsBlank(name)
    ensures !r.Passed() ==> r == Error(NameRequired)
  {
    Text.TrimEmptyIffBlank(name);
    if Text.Trim(name) == [] then Error(NameRequired) else Ok
  }

  /** `validateEmail`: required, then must match the pattern; no trimming, so a stray space fails. */
  function ValidateEmail(email: string): (r: Check)
    ensures r.Passed() <==> email != [] && EmailShape(email)
    ensures email == [] ==> r == Error(EmailRequired)
    ensures email != [] && !EmailShape(email) ==> r == Error(EmailInvalid)
  {
    if email == [] then Error(EmailRequired)
    else if !MatchesEmail(email) then Error(EmailInvalid)
    else Ok
  }

  /**
   * `validatePassword`: required, then at least six characters. Length
   * counts Unicode scalar values here; the program counts UTF-16 units.
   */
  function ValidatePassword(password: string): (r: Check)
    ensures r.Passed() <==> |password| >= MinPasswordLength
    ensures password == [] ==> r == Error(PasswordRequired)
    ensures 0 < |password| < MinPasswordLength ==> r == Error(PasswordTooShort)
  {
    if password == [] then Error(PasswordRequired)
    else if |password| < MinPasswordLength then Error(PasswordTooShort)
    else Ok
  }

  /**
   * `validateConfirmPassword`: required, at least six characters, and equal
   * to the password; the checks are made in that order. Length counts
   * Unicode scalar values here; the program counts UTF-16 units.
   */
  function ValidateConfirmPassword(confirm: string, password: string): (r: Check)
    ensures r.Passed() <==> |confirm| >= MinPasswordLength && confirm == password
    ensures confirm == [] ==> r == Error(ConfirmRequired)
    ensures 0 < |confirm| < MinPasswordLength ==> r == Error(PasswordTooShort)
    ensures |confirm| >= MinPasswordLength && confirm != password ==> r == Error(PasswordsDiffer)
  {
    if confirm == [] then Error(ConfirmRequired)
    else if |confirm| < MinPasswordLength then Error(PasswordTooShort)
    else if confirm != password then Error(PasswordsDiffer)
    else Ok
  }

  // ----------------------------------------------------------------- submitting

  /** What the authentication view-model receives: only the email and the password. */
  datatype Credentials = Credentials(email: string, password: string)

  /** The sign-up form after pressing the button: every field's message, and the request if one is made. */
  datatype SignUpOutcome = SignUpOutcome(
    name: Check, email: Check, password: Check, confirm: Check,
    request: Option<Credentials>)

  /**
   * `validateAndSignUp`: all four checks are evaluated (every field gets its
   * message, none is skipped), and sign-up is requested exactly when all pass.
   */
  function SignUp(name: string, email: string, password: string, confirm: string): (r: SignUpOutcome)
    ensures r.name == ValidateName(name) && r.email == ValidateEmail(email)
    ensures r.password == ValidatePassword(password) && r.confirm == ValidateConfirmPassword(confirm, password)
    ensures r.request.Some? <==>
      !Text.IsBlank(name) && email != [] && EmailShape(email)
      && |password| >= MinPasswordLength && confirm == password
    ensures r.request.Some? ==> r.request.value == Credentials(email, password)
  {
    var n := ValidateName(name);
    var e := ValidateEmail(email);
    var p := ValidatePassword(password);
    var c := ValidateConfirmPassword(confirm, password);
    SignUpOutcome(n, e, p, c,
      if n.Passed() && e.Passed() && p.Passed() && c.Passed() then Some(Credentials(email, password)) else None)
  }

  /** A mismatched confirmation blocks sign-up even when every other field is fine. */
  lemma MismatchBlocksSignUp(name: string, email: string, password: string, confirm: string)
    requires confirm != password
    ensures SignUp(name, email, password, confirm).request.None?
    ensures |confirm| >= MinPasswordLength ==> SignUp(name, email, password, confirm).confirm == Error(PasswordsDiffer)
  {
  }

  /** The login form after pressing the button. */
  datatype LoginOutcome = LoginOutcome(email: Check, password: Check, request: Option<Credentials>)

  /** `validateAndLogin`: both checks evaluated, sign-in requested exactly when both pass. */
  function Login(email: string, password: string): (r: LoginOutcome)
    ensures r.email == ValidateEmail(email) && r.password == ValidatePassword(password)
    ensures r.request.Some? <==> email != [] && EmailShape(email) && |password| >= MinPasswordLength
    ensures r.request.Some? ==> r.request.value == Credentials(email, password)
  {
    var e := ValidateEmail(email);
    var p := ValidatePassword(password);
    LoginOutcome(e, p, if e.Passed() && p.Passed() then Some(Credentials(email, password)) else None)
  }

  /** Credentials that sign up successfully also pass the login checks. */
  lemma SignUpImpliesLogin(name: string, email: string, password: string, confirm: string)
    requires SignUp(name, email, password, confirm).request.Some?
    ensures Login(email, password).request == SignUp(name, email, password, confirm).request
  {
  }
}
