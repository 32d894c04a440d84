/**
 * The validate-reset-token lambda: the reset page asks whether a token is
 * still good. It reads the record's `expiry` (milliseconds) and `email`.
 */
module ValidateResetToken {
  import opened Wrappers
  import opened TokenTable

  const MissingToken: Response := Json(400, Error("Missing token"), true)
  const InvalidToken: Response := Json(400, Error("Invalid token"), true)
  const TokenExpired: Response := Json(400, Error("Token expired"), true)
  const InternalError: Response := Json(500, Error("Internal server error"), true)

  /** `Date.now() > Item.expiry`; a record without `expiry` never compares as expired. */
  predicate PastExpiry(rec: TokenRecord, nowMs: int) {
    rec.expiry.Some? && nowMs > rec.expiry.value
  }

  /** The ordered checks, given the lookup result (None when the lookup fails). */
  function Validate(token: Option<string>, found: Option<Option<TokenRecord>>, nowMs: int): (r: Response)
    ensures r == MissingToken <==> !Truthy(token)
    ensures Truthy(token) ==> (r == InternalError <==> found.None?)
    ensures Truthy(token) && found.Some? ==> (r == InvalidToken <==> found.value.None?)
    ensures Truthy(token) && found.Some? && found.value.Some? ==>
      r == (if PastExpiry(found.value.value, nowMs) then TokenExpired else Json(200, ValidToken(found.value.value.email), true))
  {
    if !Truthy(token) then MissingToken
    else if found.None? then InternalError
    else if found.value.None? then InvalidToken
    else if PastExpiry(found.value.value, nowMs) then TokenExpired
    else Json(200, ValidToken(found.value.value.email), true)
  }

  /**
   * A record as request-reset writes it has `expiresAt` but no `expiry`, and
   * `username` but no `email`: the check accepts it at any time, with no
   * email, however old the token is.
   */
  lemma IssuedResetTokenNeverExpires(token: string, username: string, poolId: string, issuedMs: int, nowMs: int)
    requires token != ""
    ensures Validate(Some(token), Some(Some(Issued(token, username, poolId, Seconds(issuedMs)))), nowMs)
      == Json(200, ValidToken(None), true)
  {
  }

  /** The handler: a read-only lookup followed by `Validate`. */
  method Handler(t: TokenStore, token: Option<string>, nowMs: int, getOk: bool) returns (r: Response)
    requires t.Valid()
    ensures r == Validate(token, if getOk && Truthy(token) then Some(t.Lookup(token.value)) else None, nowMs)
  {
    if !Truthy(token) {
      return MissingToken;
    }
    if !getOk {
      return InternalError;
    }
    var found := t.Lookup(token.value);
    if found.None? {
      return InvalidToken;
    }
    if PastExpiry(found.value, nowMs) {
      return TokenExpired;
    }
    return Json(200, ValidToken(found.value.email), true);
  }
}
