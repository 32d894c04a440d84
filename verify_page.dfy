/**
 * The page the verify lambda redirects to: the `reason` query parameter
 * picks a title and message; every outcome leads back to the login page.
 */
module VerifyPage {
  import opened Wrappers
  import VerifyToken

  datatype View = View(isSuccess: bool, title: string, message: string, redirectTo: string, buttonText: string)

  /** `searchParams.get('reason') || 'error'`. */
  function ReasonParam(param: Option<string>): (reason: string)
    ensures reason != ""
    ensures Truthy(param) ==> reason == param.value
  {
    if Truthy(param) then param.value else "error"
  }

  const SuccessTitle: string := "\U{2705} Email Verified Successfully!"
  const SuccessMessage: string := "Your account has been verified. You can now login with your credentials."
  const ExpiredTitle: string := "\U{274C} Verification Link Expired"
  const ExpiredMessage: string := "Your verification link has expired. Please request a new one."
  const InvalidLinkTitle: string := "\U{274C} Invalid Verification Link"
  const InvalidLinkMessage: string := "This verification link is invalid. Please use the one from your email or request a new one."
  const UsedTitle: string := "\U{274C} Link Already Used"
  const UsedMessage: string := "This verification link has already been used. Please log in or reset your password."
  const FailedTitle: string := "\U{274C} Verification Failed"
  const FailedMessage: string := "Something went wrong during verification. Wait a few minutes, then try again."

  /** `getMessage()`. */
  function GetMessage(reason: string): (v: View)
    ensures v.isSuccess <==> reason == "success"
    ensures v.redirectTo == "/login" && v.buttonText == "Go to Login"
  {
    if reason == "success" then View(true, SuccessTitle, SuccessMessage, "/login", "Go to Login")
    else if reason == "expired" then View(false, ExpiredTitle, ExpiredMessage, "/login", "Go to Login")
    else if reason == "invalid_token" || reason == "missing_token" then
      View(false, InvalidLinkTitle, InvalidLinkMessage, "/login", "Go to Login")
    else if reason == "already_used" then View(false, UsedTitle, UsedMessage, "/login", "Go to Login")
    else View(false, FailedTitle, FailedMessage, "/login", "Go to Login")
  }

  /** A missing or empty reason shows the failure page. */
  lemma AbsentReasonFails(param: Option<string>)
    requires !Truthy(param)
    ensures GetMessage(ReasonParam(param)).title == FailedTitle
    ensures !GetMessage(ReasonParam(param)).isSuccess
  {
  }

  /** A missing and an unknown token read the same to the user. */
  lemma MissingAndInvalidAlike()
    ensures GetMessage("missing_token") == GetMessage("invalid_token")
  {
  }

  /**
   * Each reason the verify lambda sends reads as its own outcome; only a
   * successful verification shows success.
   */
  lemma LambdaReasonsOnPage(r: VerifyToken.Reason)
    ensures GetMessage(VerifyToken.ReasonText(r)).isSuccess <==> r == VerifyToken.Verified
    ensures r == VerifyToken.Expired ==> GetMessage(VerifyToken.ReasonText(r)).title == ExpiredTitle
    ensures r == VerifyToken.AlreadyUsed ==> GetMessage(VerifyToken.ReasonText(r)).title == UsedTitle
    ensures r == VerifyToken.Failed ==> GetMessage(VerifyToken.ReasonText(r)).title == FailedTitle
  {
    match r
    case Verified =>
    case Expired => assert "expired"[0] != "success"[0];
    case AlreadyUsed =>
      assert |"already_used"| != |"success"| && |"already_used"| != |"expired"|;
      assert |"already_used"| != |"invalid_token"| && |"already_used"| != |"missing_token"|;
    case Failed =>
      assert |"error"| != |"success"| && |"error"| != |"expired"| && |"error"| != |"already_used"|;
      assert |"error"| != |"invalid_token"| && |"error"| != |"missing_token"|;
    case MissingToken => assert |"missing_token"| != |"success"|;
    case InvalidToken => assert |"invalid_token"| != |"success"|;
  }
}
