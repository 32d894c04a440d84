/**
 * End-to-end runs across the token lambdas and the pages that call them:
 * what a user sees when following the mailed links.
 */
module AuthFlows {
  import opened Wrappers
  import opened TokenTable
  import RequestReset
  import ValidateResetToken
  import ConfirmReset
  import ResendVerification
  import VerifyToken
  import AuthPages

  /** The reset page's reading of each confirm-reset answer. */
  lemma ConfirmAnswersOnPage()
    ensures AuthPages.ResetOutcome(AuthPages.ReplyOf(ConfirmReset.Confirmed)) == AuthPages.Success(AuthPages.ResetDoneText)
    ensures AuthPages.ResetOutcome(AuthPages.ReplyOf(ConfirmReset.InvalidOrExpired)) == AuthPages.Failure("Invalid or expired token")
    ensures AuthPages.ResetOutcome(AuthPages.ReplyOf(ConfirmReset.ReuseRejected))
      == AuthPages.Failure("You cannot reuse a previous password. Please choose a new one.")
    ensures AuthPages.ResetOutcome(AuthPages.ReplyOf(ConfirmReset.CouldNotReset)).Failure?
    ensures AuthPages.ResetOutcome(AuthPages.ReplyOf(Crash)) == AuthPages.Failure(AuthPages.CouldNotResetText)
  {
  }

  /** Every answer of validate-reset-token but the 200 sends the page back to the login page. */
  lemma ValidateAnswersOnPage(token: Option<string>, found: Option<Option<TokenRecord>>, nowMs: int)
    ensures var rep := AuthPages.ReplyOf(ValidateResetToken.Validate(token, found, nowMs));
      rep.Some? && (rep.value.valid <==> ValidateResetToken.Validate(token, found, nowMs).status == 200)
  {
  }

  /**
   * A reset link opened at any later time is accepted with no address
   * shown, however long ago it was issued: the record carries `expiresAt`
   * and `username`, and the check reads `expiry` and `email`.
   */
  method RequestResetThenOpenLink(store: TokenStore, page: AuthPages.ResetPasswordPage, email: string, token: string,
                                  poolId: string, issueMs: int, openMs: int)
    returns (answer: Response)
    requires store.Valid() && email != "" && token != "" && page.token == Some(token)
    modifies store, page
    ensures answer == Json(200, ValidToken(None), true)
    ensures page.tokenValid && page.email.None? && !page.loading
  {
    var r, mailed := RequestReset.Handler(store, Some(email), true, token, poolId, issueMs, true, true);
    answer := ValidateResetToken.Handler(store, Some(token), openMs, true);
    var requested := page.LoadToken(AuthPages.ReplyOf(answer));
  }

  /**
   * For the same reason a reset token can be used to set a password at any
   * later time; once used it is gone.
   */
  method RequestResetThenConfirm(store: TokenStore, email: string, token: string, poolId: string,
                                 issueMs: int, confirmMs: int, p1: string, p2: string)
    returns (first: Response, second: Response, setFor: Option<Option<string>>)
    requires store.Valid() && email != "" && token != "" && p1 != "" && p2 != ""
    modifies store
    ensures first == ConfirmReset.Confirmed && setFor == Some(Some(email))
    ensures second == ConfirmReset.InvalidOrExpired
    ensures token !in store.records
  {
    var r, mailed := RequestReset.Handler(store, Some(email), true, token, poolId, issueMs, true, true);
    first, setFor := ConfirmReset.Handler(store, Some(ConfirmReset.Request(Some(token), Some(p1))), confirmMs, true, ConfirmReset.Updated, true);
    var set2;
    second, set2 := ConfirmReset.Handler(store, Some(ConfirmReset.Request(Some(token), Some(p2))), confirmMs, true, ConfirmReset.Updated, true);
  }

  /**
   * An unconfirmed user without a live token asks for a new link; the
   * mailed token verifies while it is within its ten minutes, and the
   * record then reads as used.
   */
  method ResendThenVerify(store: TokenStore, email: string, freshToken: string, poolId: string, sendMs: int, clickMs: int)
    returns (linked: Option<string>, answer: Response)
    requires store.Valid() && email != "" && freshToken != ""
    requires ResendVerification.ReusableTokens(store.records, email, Seconds(sendMs)) == {}
    requires Seconds(clickMs) <= Seconds(sendMs) + TokenLifetimeSec
    modifies store
    ensures linked == Some(freshToken)
    ensures answer == Redirect("/verify", "success")
    ensures freshToken in store.records && VerifyToken.IsUsed(store.records[freshToken])
  {
    var r;
    r, linked := ResendVerification.Handler(store, Some(email), Some("UNCONFIRMED"), freshToken, poolId, sendMs, true, true, true);
    answer := VerifyToken.Handler(store, linked, clickMs, true, true, true);
  }

  /** A link clicked after its lifetime reports `expired` and leaves the record unused. */
  method ResendThenVerifyLate(store: TokenStore, email: string, freshToken: string, poolId: string, sendMs: int, clickMs: int)
    returns (linked: Option<string>, answer: Response)
    requires store.Valid() && email != "" && freshToken != ""
    requires ResendVerification.ReusableTokens(store.records, email, Seconds(sendMs)) == {}
    requires Seconds(clickMs) > Seconds(sendMs) + TokenLifetimeSec
    modifies store
    ensures linked == Some(freshToken)
    ensures answer == Redirect("/verify", "expired")
    ensures freshToken in store.records && !VerifyToken.IsUsed(store.records[freshToken])
  {
    var r;
    r, linked := ResendVerification.Handler(store, Some(email), Some("UNCONFIRMED"), freshToken, poolId, sendMs, true, true, true);
    answer := VerifyToken.Handler(store, linked, clickMs, true, true, true);
  }
}
