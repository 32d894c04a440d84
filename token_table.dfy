/**
 * The token tables of the auth backend, keyed by `token`. The magic-link
 * table serves sign-up verification; the reset table serves password resets.
 * Records are schemaless, so every attribute is optional: writers set
 * `username`, `userPoolId`, `expiresAt` (seconds), `used` and `createdAt`,
 * while the reset readers look for `expiry` (milliseconds) and `email`.
 */
module TokenTable {
  import opened Wrappers

  datatype TokenRecord = TokenRecord(
    token: string,
    username: Option<string>,
    userPoolId: Option<string>,
    expiresAt: Option<int>,
    used: Option<bool>,
    createdAt: Option<int>,
    usedAt: Option<int>,
    expiry: Option<int>,
    email: Option<string>)

  /** Ten minutes, in seconds: the lifetime writers give a token. */
  const TokenLifetimeSec: int := 10 * 60

  /** The record request-reset and resend-verification write for a new token. */
  function Issued(token: string, username: string, poolId: string, nowSec: int): (r: TokenRecord)
    ensures r.token == token && r.username == Some(username) && r.userPoolId == Some(poolId)
    ensures r.expiresAt == Some(nowSec + TokenLifetimeSec) && r.used == Some(false) && r.createdAt == Some(nowSec)
    ensures r.usedAt.None? && r.expiry.None? && r.email.None?
  {
    TokenRecord(token, Some(username), Some(poolId), Some(nowSec + TokenLifetimeSec), Some(false), Some(nowSec), None, None, None)
  }

  /** `Math.floor(Date.now() / 1000)`. */
  function Seconds(nowMs: int): int {
    nowMs / 1000
  }

  /** The body of a JSON response. */
  datatype Body =
    | Message(message: string)
    | Error(error: string)
    | ValidToken(email: Option<string>)
    | Success

  datatype Response =
    | Redirect(path: string, reason: string)
    | Json(status: int, body: Body, cors: bool)
    /** The request body could not be parsed outside the handler's try block: the invocation fails. */
    | Crash

  class TokenStore {
    var records: map<string, TokenRecord>

    /** Every record is stored under its own token. */
    ghost predicate Valid()
      reads this
    {
      forall k :: k in records ==> records[k].token == k
    }

    constructor ()
      ensures Valid() && records == map[]
    {
      records := map[];
    }

    /** The key lookup (`GetCommand`) as a value. */
    function Lookup(token: string): (r: Option<TokenRecord>)
      reads this
      ensures r.Some? <==> token in records
      ensures r.Some? ==> r.value == records[token]
    {
      if token in records then Some(records[token]) else None
    }
  }
}
