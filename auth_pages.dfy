/**
 * The sign-up, reset-password and login pages. Each is a class over the
 * page's state; a notification is the `toast` field, a navigation the
 * `navigatedTo` field, and a request body the method's result. What a
 * fetch returned is a parameter: `None` where the fetch or `res.json()`
 * rejects, otherwise the fields the page reads.
 */
module AuthPages {
  import opened Wrappers
  import Text
  import opened Validators
  import TokenTable

  datatype Toast = Success(text: string) | Failure(text: string)

  /** The parts of a reply the pages read: `res.ok`, `data.error`, `data.valid` and `data.email`. */
  datatype Reply = Reply(ok: bool, error: Option<string>, valid: bool, email: Option<string>)

  /**
   * The reply the browser sees for a token lambda's response. A redirect
   * leads to an HTML page, on which `res.json()` rejects; a crashed lambda
   * is answered by the gateway with a 502 whose body has none of the fields.
   */
  function ReplyOf(r: TokenTable.Response): (rep: Option<Reply>)
    ensures rep.None? <==> r.Redirect?
    ensures rep.Some? ==> (rep.value.ok <==> r.Json? && 200 <= r.status < 300)
    ensures rep.Some? ==> (rep.value.valid <==> r.Json? && r.body.ValidToken?)
    ensures rep.Some? && rep.value.valid ==> rep.value.email == r.body.email
    ensures rep.Some? ==> (rep.value.error.Some? <==> r.Json? && r.body.Error?)
  {
    match r
    case Redirect(_, _) => None
    case Crash => Some(Reply(false, None, false, None))
    case Json(status, body, _) =>
      Some(Reply(200 <= status < 300,
        if body.Error? then Some(body.error) else None,
        body.ValidToken?,
        if body.ValidToken? then body.email else None))
  }

  const InvalidEmailText: string := "Please enter a valid email address."
  const MismatchText: string := "Passwords do not match."

  // ---------------------------------------------------------------- sign-up

  const SignUpPolicyText: string := "Password does not meet requirement."
  const SignUpDoneText: string := "Sign up completed successfully! Check your email for the verification link."
  const SignUpFailedText: string := "Sign-up failed. Please check your details and try again later."

  /** The error `handleSignUp` reports first, or None when the form is sent. */
  function SignUpProblem(email: string, password: string, confirm: string): (r: Option<string>)
    ensures r.None? <==> IsValidEmail(email) && IsValidPassword(password) && password == confirm
    ensures r == Some(InvalidEmailText) <==> !IsValidEmail(email)
    ensures r == Some(SignUpPolicyText) <==> IsValidEmail(email) && !IsValidPassword(password)
    ensures r == Some(MismatchText) <==> IsValidEmail(email) && IsValidPassword(password) && password != confirm
  {
    if !IsValidEmail(email) then Some(InvalidEmailText)
    else if !IsValidPassword(password) then Some(SignUpPolicyText)
    else if password != confirm then Some(MismatchText)
    else None
  }

  class SignUpPage {
    var email: string
    var password: string
    var confirmPassword: string
    var showVerificationCard: bool
    var loading: bool
    var toast: Option<Toast>

    constructor ()
      ensures email == "" && password == "" && confirmPassword == ""
      ensures !showVerificationCard && !loading && toast.None?
    {
      email, password, confirmPassword := "", "", "";
      showVerificationCard, loading, toast := false, false, None;
    }

    /**
     * `handleSignUp`: the three checks in order, the first failure reported
     * and nothing sent; otherwise the form is posted, the verification card
     * shown on an ok reply, and `loading` cleared whatever happened.
     */
    method HandleSignUp(reply: Option<Reply>) returns (sent: Option<(string, string)>)
      modifies this
      ensures email == old(email) && password == old(password) && confirmPassword == old(confirmPassword)
      ensures sent.Some? <==> SignUpProblem(email, password, confirmPassword).None?
      ensures sent.None? ==> (
        && toast == Some(Failure(SignUpProblem(email, password, confirmPassword).value))
        && loading == old(loading) && showVerificationCard == old(showVerificationCard))
      ensures sent.Some? ==> (
        && sent.value == (email, password) && !loading
        && (showVerificationCard <==> old(showVerificationCard) || (reply.Some? && reply.value.ok))
        && toast == Some(if reply.Some? && reply.value.ok then Success(SignUpDoneText) else Failure(SignUpFailedText)))
    {
      var problem := SignUpProblem(email, password, confirmPassword);
      if problem.Some? {
        toast := Some(Failure(problem.value));
        return None;
      }
      loading := true;
      sent := Some((email, password));
      if reply.Some? && reply.value.ok {
        showVerificationCard := true;
        toast := Some(Success(SignUpDoneText));
      } else {
        toast := Some(Failure(SignUpFailedText));
      }
      loading := false;
    }
  }

  // --------------------------------------------------------- reset password

  const InvalidLinkText: string := "Reset link is invalid or expired."
  const UnvalidatedLinkText: string := "Could not validate reset link."
  const ResetPolicyText: string := "Password does not meet requirements."
  const CouldNotResetText: string := "Could not reset password. Try again later."
  const ResetDoneText: string := "Password has been reset successfully."

  /** The error `handleResetPassword` reports before any request, or None. */
  function ResetProblem(password: string, confirm: string): (r: Option<string>)
    ensures r.None? <==> password == confirm && IsPasswordValid(password)
    ensures r == Some(MismatchText) <==> password != confirm
    ensures r == Some(ResetPolicyText) <==> password == confirm && !IsPasswordValid(password)
  {
    if password != confirm then Some(MismatchText)
    else if !IsPasswordValid(password) then Some(ResetPolicyText)
    else None
  }

  /** The notification after the confirm request: success exactly for an ok reply without a truthy error. */
  function ResetOutcome(reply: Option<Reply>): (t: Toast)
    ensures t.Success? <==> reply.Some? && reply.value.ok && !Truthy(reply.value.error)
    ensures t.Success? ==> t.text == ResetDoneText
    ensures t.Failure? && reply.Some? && Truthy(reply.value.error) ==> t.text == reply.value.error.value
    ensures t.Failure? && !(reply.Some? && Truthy(reply.value.error)) ==> t.text == CouldNotResetText
  {
    match reply
    case None => Failure(CouldNotResetText)
    case Some(rep) =>
      if !rep.ok || Truthy(rep.error) then
        Failure(if Truthy(rep.error) then rep.error.value else CouldNotResetText)
      else Success(ResetDoneText)
  }

  class ResetPasswordPage {
    /** The `token` query parameter; `null` when absent. */
    const token: Option<string>
    var tokenValid: bool
    /** The address shown; `undefined` once a reply without one has been read. */
    var email: Option<string>
    var loading: bool
    var newPassword: string
    var confirmPassword: string
    var navigatedTo: Option<string>
    var toast: Option<Toast>

    constructor (token: Option<string>)
      ensures this.token == token && !tokenValid && email == Some("") && loading
      ensures newPassword == "" && confirmPassword == "" && navigatedTo.None? && toast.None?
    {
      this.token := token;
      tokenValid, email, loading := false, Some(""), true;
      newPassword, confirmPassword := "", "";
      navigatedTo, toast := None, None;
    }

    /**
     * The page-load effect. Without a (truthy) token it navigates to the
     * login page and fetches nothing, so `loading` stays set. Otherwise the
     * token is sent for validation: a reply without a truthy `valid`, or a
     * failed fetch, is reported and sends the user to the login page; a
     * valid one stores the address and marks the token valid.
     */
    method LoadToken(reply: Option<Reply>) returns (requested: Option<string>)
      modifies this
      ensures newPassword == old(newPassword) && confirmPassword == old(confirmPassword)
      ensures requested.Some? <==> Truthy(token)
      ensures !Truthy(token) ==> (
        && navigatedTo == Some("/login") && loading == old(loading)
        && tokenValid == old(tokenValid) && email == old(email) && toast == old(toast))
      ensures Truthy(token) ==> requested == token && !loading
      ensures Truthy(token) && reply.Some? && reply.value.valid ==> (
        && tokenValid && email == reply.value.email
        && navigatedTo == old(navigatedTo) && toast == old(toast))
      ensures Truthy(token) && reply.Some? && !reply.value.valid ==> (
        && toast == Some(Failure(InvalidLinkText)) && navigatedTo == Some("/login")
        && tokenValid == old(tokenValid) && email == old(email))
      ensures Truthy(token) && reply.None? ==> (
        && toast == Some(Failure(UnvalidatedLinkText)) && navigatedTo == Some("/login")
        && tokenValid == old(tokenValid) && email == old(email))
    {
      if !Truthy(token) {
        navigatedTo := Some("/login");
        return None;
      }
      requested := token;
      match reply {
        case None =>
          toast := Some(Failure(UnvalidatedLinkText));
          navigatedTo := Some("/login");
        case Some(rep) =>
          if !rep.valid {
            toast := Some(Failure(InvalidLinkText));
            navigatedTo := Some("/login");
          } else {
            email := rep.email;
            tokenValid := true;
          }
      }
      loading := false;
    }

    /**
     * `handleResetPassword`: a mismatch is reported before the policy, and
     * neither sends anything; otherwise the token and the new password are
     * posted and the outcome reported, with a move to the login page only
     * on success.
     */
    method HandleResetPassword(reply: Option<Reply>) returns (sent: Option<(Option<string>, string)>)
      modifies this
      ensures newPassword == old(newPassword) && confirmPassword == old(confirmPassword)
      ensures tokenValid == old(tokenValid) && email == old(email) && loading == old(loading)
      ensures sent.Some? <==> ResetProblem(newPassword, confirmPassword).None?
      ensures sent.None? ==> (
        && toast == Some(Failure(ResetProblem(newPassword, confirmPassword).value))
        && navigatedTo == old(navigatedTo))
      ensures sent.Some? ==> (
        && sent.value == (token, newPassword)
        && toast == Some(ResetOutcome(reply))
        && navigatedTo == (if ResetOutcome(reply).Success? then Some("/login") else old(navigatedTo)))
    {
      var problem := ResetProblem(newPassword, confirmPassword);
      if problem.Some? {
        toast := Some(Failure(problem.value));
        return None;
      }
      sent := Some((token, newPassword));
      var outcome := ResetOutcome(reply);
      toast := Some(outcome);
      if outcome.Success? {
        navigatedTo := Some("/login");
      }
    }
  }

  // ------------------------------------------------------------------ login

  const LoginDoneText: string := "Successfully logged in!"
  const LoginFailedText: string := "Login failed! Check your credentials or verify your account, then try again later."
  const ResetLinkText: string := "If an account exists with this email address, a password reset link has been sent."
  const VerificationLinkText: string := "If an unverified account exists with this email address, a verification link has been sent."

  class LoginPage {
    var showForgotModal: bool
    var showVerifyModal: bool
    var email: string
    var password: string
    var navigatedTo: Option<string>
    var toast: Option<Toast>

    constructor ()
      ensures !showForgotModal && !showVerifyModal && email == "" && password == ""
      ensures navigatedTo.None? && toast.None?
    {
      showForgotModal, showVerifyModal := false, false;
      email, password := "", "";
      navigatedTo, toast := None, None;
    }

    /** `handleLogin`: the sign-in result decides between the dashboard and an error. */
    method HandleLogin(signedIn: bool) returns (credentials: (string, string))
      modifies this
      ensures credentials == (email, password)
      ensures email == old(email) && password == old(password)
      ensures showForgotModal == old(showForgotModal) && showVerifyModal == old(showVerifyModal)
      ensures signedIn ==> toast == Some(Success(LoginDoneText)) && navigatedTo == Some("/dashboard")
      ensures !signedIn ==> toast == Some(Failure(LoginFailedText)) && navigatedTo == old(navigatedTo)
    {
      credentials := (email, password);
      if signedIn {
        toast := Some(Success(LoginDoneText));
        navigatedTo := Some("/dashboard");
      } else {
        toast := Some(Failure(LoginFailedText));
      }
    }

    /**
     * `handleForgotPassword`: the trimmed input is checked and, when valid,
     * sent; the generic notice and the closed modal follow whether the
     * fetch resolved or threw, so the outcome is not a parameter.
     */
    method HandleForgotPassword(input: string) returns (sent: Option<string>)
      modifies this
      ensures email == old(email) && password == old(password) && navigatedTo == old(navigatedTo)
      ensures showVerifyModal == old(showVerifyModal)
      ensures sent.Some? <==> IsValidEmail(Text.Trim(input))
      ensures sent.Some? ==> sent.value == Text.Trim(input) && toast == Some(Success(ResetLinkText)) && !showForgotModal
      ensures sent.None? ==> toast == Some(Failure(InvalidEmailText)) && showForgotModal == old(showForgotModal)
    {
      var trimmed := Text.Trim(input);
      if !IsValidEmail(trimmed) {
        toast := Some(Failure(InvalidEmailText));
        return None;
      }
      sent := Some(trimmed);
      toast := Some(Success(ResetLinkText));
      showForgotModal := false;
    }

    /** `handleResendVerification`: checks the trimmed input, but sends the input as typed. */
    method HandleResendVerification(input: string) returns (sent: Option<string>)
      modifies this
      ensures email == old(email) && password == old(password) && navigatedTo == old(navigatedTo)
      ensures showForgotModal == old(showForgotModal)
      ensures sent.Some? <==> IsValidEmail(Text.Trim(input))
      ensures sent.Some? ==> sent.value == input && toast == Some(Success(VerificationLinkText)) && !showVerifyModal
      ensures sent.None? ==> toast == Some(Failure(InvalidEmailText)) && showVerifyModal == old(showVerifyModal)
    {
      if !IsValidEmail(Text.Trim(input)) {
        toast := Some(Failure(InvalidEmailText));
        return None;
      }
      sent := Some(input);
      toast := Some(Success(VerificationLinkText));
      showVerifyModal := false;
    }
  }

  /** The untrimmed input the resend flow sends need not be a valid address itself. */
  lemma ResendSendsUntrimmed()
    ensures IsValidEmail(Text.Trim(" a@b.co")) && !IsValidEmail(" a@b.co")
  {
    var s := " a@b.co";
    var t := "a@b.co";
    assert Text.IsSpace(s[0]);
    assert s[1..] == t;
    assert Text.LeadingSpaces(s) == 1 by { assert !Text.IsSpace(s[1]); }
    assert Text.TrailingSpaces(t) == 0 by { assert !Text.IsSpace(t[|t| - 1]); }
    assert Text.Trim(s) == t;
    ShortAddressValid();
  }

  lemma ShortAddressValid()
    ensures IsValidEmail("a@b.co")
  {
    var t := "a@b.co";
    assert t[1..][0] == '@';
    assert Text.IndexOf(t, '@') == 1;
    var d := t[2..];
    assert d == "b.co";
    assert d[1..][1..][1..][1..] == [];
    assert Text.IndexOf(d, '@') == -1;
    assert d[1] == '.';
  }
}
