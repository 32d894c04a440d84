/**
 * The confirm-reset lambda: with a good token it sets the user's new
 * password and deletes the token, so a token works once.
 */
module ConfirmReset {
  import opened Wrappers
  import opened TokenTable
  import ValidateResetToken

  /** The parsed body; either field may be missing. */
  datatype Request = Request(token: Option<string>, newPassword: Option<string>)

  /** What setting the password in Cognito did. */
  datatype PasswordUpdate = Updated | HistoryViolation | UpdateFailed

  const MissingFields: Response := Json(400, Error("Missing fields"), true)
  const InvalidOrExpired: Response := Json(400, Error("Invalid or expired token"), true)
  /** The history-violation answer carries no CORS headers. */
  const ReuseRejected: Response := Json(400, Error("You cannot reuse a previous password. Please choose a new one."), false)
  const CouldNotReset: Response := Json(500, Error("Could not reset password. Try again later."), true)
  const Confirmed: Response := Json(200, Success, true)

  /** The token passes the check: the record exists and its `expiry`, if any, is not past. */
  predicate Usable(found: Option<TokenRecord>, nowMs: int) {
    found.Some? && !ValidateResetToken.PastExpiry(found.value, nowMs)
  }

  /**
   * The handler. `body` is None when the body does not parse (inside the
   * try: a 500); `getOk`, `update` and `deleteOk` are the results of the
   * lookup, the password update and the token deletion. `passwordSetFor`
   * is the user whose password was set.
   */
  method Handler(t: TokenStore, body: Option<Request>, nowMs: int, getOk: bool, update: PasswordUpdate, deleteOk: bool)
    returns (r: Response, passwordSetFor: Option<Option<string>>)
    requires t.Valid()
    modifies t
    ensures t.Valid()
    ensures body.None? ==> r == CouldNotReset && t.records == old(t.records) && passwordSetFor.None?
    ensures body.Some? && !(Truthy(body.value.token) && Truthy(body.value.newPassword)) ==>
      r == MissingFields && t.records == old(t.records) && passwordSetFor.None?
    ensures body.Some? && Truthy(body.value.token) && Truthy(body.value.newPassword) ==>
      var tok := body.value.token.value;
      var found := old(t.Lookup(tok));
      && (!getOk ==> r == CouldNotReset && t.records == old(t.records) && passwordSetFor.None?)
      && (getOk && !Usable(found, nowMs) ==> r == InvalidOrExpired && t.records == old(t.records) && passwordSetFor.None?)
      && (getOk && Usable(found, nowMs) ==>
            && (update == HistoryViolation ==> r == ReuseRejected && t.records == old(t.records) && passwordSetFor.None?)
            && (update == UpdateFailed ==> r == CouldNotReset && t.records == old(t.records) && passwordSetFor.None?)
            && (update == Updated ==> passwordSetFor == Some(found.value.username))
            && (update == Updated && !deleteOk ==> r == CouldNotReset && t.records == old(t.records))
            && (update == Updated && deleteOk ==> r == Confirmed && t.records == old(t.records) - {tok}))
  {
    passwordSetFor := None;
    if body.None? {
      return CouldNotReset, passwordSetFor;
    }
    var req := body.value;
    if !Truthy(req.token) || !Truthy(req.newPassword) {
      return MissingFields, passwordSetFor;
    }
    if !getOk {
      return CouldNotReset, passwordSetFor;
    }
    var found := t.Lookup(req.token.value);
    if found.None? || ValidateResetToken.PastExpiry(found.value, nowMs) {
      return InvalidOrExpired, passwordSetFor;
    }
    match update {
      case HistoryViolation => return ReuseRejected, passwordSetFor;
      case UpdateFailed => return CouldNotReset, passwordSetFor;
      case Updated =>
    }
    passwordSetFor := Some(found.value.username);
    if !deleteOk {
      return CouldNotReset, passwordSetFor;
    }
    t.records := t.records - {req.token.value};
    return Confirmed, passwordSetFor;
  }

  /** A token confirms once: the second confirm with it is refused and sets no password. */
  method ConfirmTwice(t: TokenStore, token: string, p1: string, p2: string, nowMs: int)
    returns (first: Response, second: Response)
    requires t.Valid() && token != "" && p1 != "" && p2 != ""
    requires Usable(t.Lookup(token), nowMs)
    modifies t
    ensures first == Confirmed && second == InvalidOrExpired
  {
    var set1, set2;
    first, set1 := Handler(t, Some(Request(Some(token), Some(p1))), nowMs, true, Updated, true);
    second, set2 := Handler(t, Some(Request(Some(token), Some(p2))), nowMs, true, Updated, true);
  }
}
