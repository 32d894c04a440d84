/**
 * The verify lambda behind a magic link: it checks the token in a fixed
 * order (missing, unknown, used, expired), confirms the user, marks the
 * token used and redirects to the front end with a reason.
 */
module VerifyToken {
  import opened Wrappers
  import opened TokenTable

  datatype Reason = MissingToken | InvalidToken | AlreadyUsed | Expired | Verified | Failed

  /** The reason as it appears in the redirect's query string. */
  function ReasonText(r: Reason): string {
    match r
    case MissingToken => "missing_token"
    case InvalidToken => "invalid_token"
    case AlreadyUsed => "already_used"
    case Expired => "expired"
    case Verified => "success"
    case Failed => "error"
  }

  function RedirectFor(r: Reason): Response {
    if r == Failed then Redirect("/verify-error", ReasonText(r)) else Redirect("/verify", ReasonText(r))
  }

  /** A record is used when its `used` attribute is truthy. */
  predicate IsUsed(rec: TokenRecord) {
    rec.used == Some(true)
  }

  /** `expiresAt < now` in seconds; a record without `expiresAt` never compares as expired. */
  predicate IsExpired(rec: TokenRecord, nowSec: int) {
    rec.expiresAt.Some? && rec.expiresAt.value < nowSec
  }

  /** The ordered checks, given the lookup result. */
  function Classify(token: Option<string>, found: Option<TokenRecord>, nowSec: int): (r: Reason)
    ensures r != Failed
    ensures r == MissingToken <==> !Truthy(token)
    ensures r == InvalidToken <==> Truthy(token) && found.None?
    ensures r == AlreadyUsed <==> Truthy(token) && found.Some? && IsUsed(found.value)
    ensures r == Expired <==> Truthy(token) && found.Some? && !IsUsed(found.value) && IsExpired(found.value, nowSec)
  {
    if !Truthy(token) then MissingToken
    else if found.None? then InvalidToken
    else if IsUsed(found.value) then AlreadyUsed
    else if IsExpired(found.value, nowSec) then Expired
    else Verified
  }

  /** The used check comes first: a used token reports `already_used` even when it has also expired. */
  lemma UsedBeforeExpired(token: string, rec: TokenRecord, nowSec: int)
    requires token != "" && IsUsed(rec) && IsExpired(rec, nowSec)
    ensures Classify(Some(token), Some(rec), nowSec) == AlreadyUsed
  {
  }

  /** A token is still accepted in the very second it expires. */
  lemma AcceptedAtExpiry(token: string, rec: TokenRecord)
    requires token != "" && !IsUsed(rec) && rec.expiresAt.Some?
    ensures Classify(Some(token), Some(rec), rec.expiresAt.value) == Verified
    ensures Classify(Some(token), Some(rec), rec.expiresAt.value + 1) == Expired
  {
  }

  /**
   * The handler. `getOk`, `cognitoOk` (confirm and attribute update) and
   * `updateOk` say which remote calls succeed; a failure redirects to the
   * error page.
   */
  method Handler(t: TokenStore, token: Option<string>, nowMs: int, getOk: bool, cognitoOk: bool, updateOk: bool)
    returns (r: Response)
    requires t.Valid()
    modifies t
    ensures t.Valid()
    ensures !Truthy(token) ==> r == RedirectFor(MissingToken) && t.records == old(t.records)
    ensures Truthy(token) && !getOk ==> r == RedirectFor(Failed) && t.records == old(t.records)
    ensures Truthy(token) && getOk ==>
      var reason := Classify(token, old(t.Lookup(token.value)), Seconds(nowMs));
      && (reason != Verified ==> r == RedirectFor(reason) && t.records == old(t.records))
      && (reason == Verified && !(cognitoOk && updateOk) ==> r == RedirectFor(Failed) && t.records == old(t.records))
      && (reason == Verified && cognitoOk && updateOk ==>
            r == RedirectFor(Verified)
            && t.records == old(t.records)[token.value := old(t.records)[token.value].(used := Some(true), usedAt := Some(Seconds(nowMs)))])
  {
    if !Truthy(token) {
      return RedirectFor(MissingToken);
    }
    if !getOk {
      return RedirectFor(Failed);
    }
    var found := t.Lookup(token.value);
    var reason := Classify(token, found, Seconds(nowMs));
    if reason != Verified {
      return RedirectFor(reason);
    }
    if !cognitoOk || !updateOk {
      return RedirectFor(Failed);
    }
    var rec := found.value;
    t.records := t.records[token.value := rec.(used := Some(true), usedAt := Some(Seconds(nowMs)))];
    return RedirectFor(Verified);
  }

  /** Following the same link twice: the second visit reports `already_used`. */
  method VerifyTwice(t: TokenStore, token: string, nowMs: int) returns (first: Response, second: Response)
    requires t.Valid() && token != "" && token in t.records
    requires !IsUsed(t.records[token]) && !IsExpired(t.records[token], Seconds(nowMs))
    modifies t
    ensures first == Redirect("/verify", "success") && second == Redirect("/verify", "already_used")
  {
    first := Handler(t, Some(token), nowMs, true, true, true);
    second := Handler(t, Some(token), nowMs, true, true, true);
  }
}
