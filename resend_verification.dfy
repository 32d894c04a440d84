/**
 * The resend-verification lambda: for an unconfirmed user it mails a magic
 * link again, reusing an unused, unexpired token of that user when the scan
 * finds one, and writing a new token record otherwise.
 */
module ResendVerification {
  import opened Wrappers
  import opened TokenTable

  const GenericMessage: string := "If an unverified account exists with this email, a new verification link has been sent."
  const Generic: Response := Json(200, Message(GenericMessage), true)
  const AlreadyVerified: Response := Json(400, Message("User is already verified or does not exist."), true)

  /** The scan filter: `username = email AND used = false AND expiresAt > now`. */
  predicate Reusable(rec: TokenRecord, email: string, nowSec: int) {
    rec.username == Some(email) && rec.used == Some(false) && rec.expiresAt.Some? && rec.expiresAt.value > nowSec
  }

  function ReusableTokens(records: map<string, TokenRecord>, email: string, nowSec: int): set<string> {
    set k | k in records && Reusable(records[k], email, nowSec)
  }

  /** A token in its last second is no longer reusable: the comparison is strict. */
  lemma NotReusableAtExpiry(rec: TokenRecord, email: string)
    requires rec.expiresAt.Some?
    ensures !Reusable(rec, email, rec.expiresAt.value)
  {
  }

  /** A freshly issued token is reusable for the rest of its lifetime and not after. */
  lemma IssuedReusableWithinLifetime(token: string, email: string, poolId: string, issuedSec: int, nowSec: int)
    ensures Reusable(Issued(token, email, poolId, issuedSec), email, nowSec) <==> nowSec < issuedSec + TokenLifetimeSec
  {
  }

  function TokensOf(rs: seq<TokenRecord>): set<string> {
    set i | 0 <= i < |rs| :: rs[i].token
  }

  lemma TokensOfAppend(rs: seq<TokenRecord>, rec: TokenRecord)
    ensures TokensOf(rs + [rec]) == TokensOf(rs) + {rec.token}
  {
    var all := rs + [rec];
    assert all[|rs|] == rec;
    forall k | k in TokensOf(rs) ensures k in TokensOf(all) {
      var i :| 0 <= i < |rs| && rs[i].token == k;
      assert all[i] == rs[i];
    }
  }

  /** The scan, in the table's order: the matching records, each once. */
  method ScanReusable(t: TokenStore, email: string, nowSec: int) returns (found: seq<TokenRecord>)
    requires t.Valid()
    ensures forall i :: 0 <= i < |found| ==> found[i].token in t.records && t.records[found[i].token] == found[i]
    ensures forall i :: 0 <= i < |found| ==> Reusable(found[i], email, nowSec)
    ensures TokensOf(found) == ReusableTokens(t.records, email, nowSec)
  {
    found := [];
    var rest := t.records.Keys;
    while rest != {}
      invariant rest <= t.records.Keys
      invariant forall i :: 0 <= i < |found| ==> found[i].token in t.records && t.records[found[i].token] == found[i]
      invariant forall i :: 0 <= i < |found| ==> Reusable(found[i], email, nowSec)
      invariant TokensOf(found) == ReusableTokens(t.records, email, nowSec) - rest
      decreases rest
    {
      var k :| k in rest;
      if Reusable(t.records[k], email, nowSec) {
        TokensOfAppend(found, t.records[k]);
        found := found + [t.records[k]];
      }
      rest := rest - {k};
    }
  }

  /**
   * The handler. `email` is None when the body does not parse (outside the
   * try: the invocation fails); `userStatus` is None when the Cognito lookup
   * throws (an unknown user); `freshToken` is the random token; `scanOk`,
   * `putOk` and `sesOk` say which remote calls succeed. `linked` is the
   * token of the link that was mailed.
   */
  method Handler(t: TokenStore, email: Option<string>, userStatus: Option<string>, freshToken: string, poolId: string,
                 nowMs: int, scanOk: bool, putOk: bool, sesOk: bool)
    returns (r: Response, linked: Option<string>)
    requires t.Valid()
    modifies t
    ensures t.Valid()
    ensures email.None? ==> r == Crash && t.records == old(t.records) && linked.None?
    ensures email.Some? && userStatus.Some? && userStatus.value != "UNCONFIRMED" ==>
      r == AlreadyVerified && t.records == old(t.records) && linked.None?
    ensures email.Some? && !(userStatus.Some? && userStatus.value != "UNCONFIRMED") ==> r == Generic
    ensures email.Some? && userStatus == Some("UNCONFIRMED") && scanOk ==>
      var reusable := ReusableTokens(old(t.records), email.value, Seconds(nowMs));
      && (reusable != {} ==>
            t.records == old(t.records)
            && (sesOk ==> linked.Some? && linked.value in reusable)
            && (!sesOk ==> linked.None?))
      && (reusable == {} && putOk ==>
           t.records == old(t.records)[freshToken := Issued(freshToken, email.value, poolId, Seconds(nowMs))]
           && linked == if sesOk then Some(freshToken) else None)
      && (reusable == {} && !putOk ==> t.records == old(t.records) && linked.None?)
    ensures !(email.Some? && userStatus == Some("UNCONFIRMED") && scanOk) ==> t.records == old(t.records) && linked.None?
  {
    linked := None;
    if email.None? {
      return Crash, linked;
    }
    if userStatus.None? {
      return Generic, linked;
    }
    if userStatus.value != "UNCONFIRMED" {
      return AlreadyVerified, linked;
    }
    var now := Seconds(nowMs);
    if !scanOk {
      return Generic, linked;
    }
    var existing := ScanReusable(t, email.value, now);
    var token;
    if |existing| > 0 {
      assert existing[0].token in TokensOf(existing);
      token := existing[0].token;
    } else {
      token := freshToken;
      if !putOk {
        return Generic, linked;
      }
      t.records := t.records[token := Issued(token, email.value, poolId, now)];
    }
    if sesOk {
      linked := Some(token);
    }
    return Generic, linked;
  }
}
