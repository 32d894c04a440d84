/**
 * The request-reset lambda: for a known user it writes a reset token record
 * and mails a link carrying the token and a masked form of the address.
 * Whatever happens inside the handler, the caller sees the same generic
 * answer.
 */
module RequestReset {
  import opened Wrappers
  import opened TokenTable
  import Text

  const GenericMessage: string := "If an account exists with this email, a password reset link has been sent."
  const Generic: Response := Json(200, Message(GenericMessage), true)

  /** The local part: `email.split("@")[0]`. */
  function LocalPart(email: string): (l: string)
    ensures l <= email && '@' !in l
    ensures |l| < |email| ==> email[|l|] == '@'
  {
    var i := Text.IndexOf(email, '@');
    if i < 0 then email else email[..i]
  }

  /** The domain: `email.split("@")[1]`, which is `undefined` (printed so) without an '@'. */
  function DomainPart(email: string): (d: string)
    ensures '@' in email ==> '@' !in d
  {
    var i := Text.IndexOf(email, '@');
    if i < 0 then "undefined"
    else
      var rest := email[i + 1..];
      var j := Text.IndexOf(rest, '@');
      if j < 0 then rest else rest[..j]
  }

  function Stars(n: nat): (r: string)
    ensures |r| == n && forall i :: 0 <= i < n ==> r[i] == '*'
  {
    if n == 0 then [] else Stars(n - 1) + ['*']
  }

  /**
   * `maskEmail`: the first character of the local part, stars, the last
   * character when the local part is longer than two, then "@" and the
   * domain. An empty local part makes `repeat` throw: None.
   */
  function MaskEmail(email: string): (r: Option<string>)
    ensures r.None? <==> LocalPart(email) == []
    ensures r.Some? ==> |r.value| > 0 && r.value[0] == email[0]
  {
    var local := LocalPart(email);
    if |local| == 0 then None
    else if |local| <= 2 then Some([local[0]] + Stars(|local| - 1) + "@" + DomainPart(email))
    else Some([local[0]] + Stars(|local| - 2) + [local[|local| - 1]] + "@" + DomainPart(email))
  }

  /**
   * For an address with exactly one '@' and a non-empty local part, the
   * mask keeps the length, the first character and the "@domain" tail,
   * keeps the last local character when there are more than two, and stars
   * every other local character.
   */
  lemma MaskShape(email: string)
    requires LocalPart(email) != [] && '@' in email
    requires '@' !in email[|LocalPart(email)| + 1..]
    ensures var m := MaskEmail(email).value; var n := |LocalPart(email)|;
      && |m| == |email| && m[0] == email[0] && m[n..] == email[n..]
      && (forall i :: 1 <= i < n && (n <= 2 || i < n - 1) ==> m[i] == '*')
      && (n > 2 ==> m[n - 1] == email[n - 1])
  {
    var local := LocalPart(email);
    var n := |local|;
    var i := Text.IndexOf(email, '@');
    assert i == n;
    var rest := email[i + 1..];
    assert Text.IndexOf(rest, '@') == -1;
    assert DomainPart(email) == rest;
    assert email == local + "@" + rest;
  }

  /** Without an '@' the masked address ends in "@undefined". */
  lemma MaskWithoutAt(email: string)
    requires email != [] && '@' !in email
    ensures var m := MaskEmail(email).value; m[|m| - 10..] == "@undefined"
  {
    assert LocalPart(email) == email;
  }

  /**
   * The handler. `email` is None when the body does not parse (outside the
   * try: the invocation fails); `userExists` is the Cognito lookup; `token`
   * the random token; `putOk` and `sesOk` whether the write and the mail
   * succeed. `mailed` is the masked address of the link that was sent.
   */
  method Handler(t: TokenStore, email: Option<string>, userExists: bool, token: string, poolId: string,
                 nowMs: int, putOk: bool, sesOk: bool)
    returns (r: Response, mailed: Option<string>)
    requires t.Valid()
    modifies t
    ensures t.Valid()
    ensures email.None? ==> r == Crash
    ensures email.Some? ==> r == Generic
    ensures email.Some? && userExists && putOk ==>
      t.records == old(t.records)[token := Issued(token, email.value, poolId, Seconds(nowMs))]
    ensures !(email.Some? && userExists && putOk) ==> t.records == old(t.records)
    ensures mailed == if email.Some? && userExists && putOk && sesOk then MaskEmail(email.value) else None
  {
    mailed := None;
    if email.None? {
      return Crash, mailed;
    }
    if !userExists {
      return Generic, mailed;
    }
    var now := Seconds(nowMs);
    if !putOk {
      return Generic, mailed;
    }
    t.records := t.records[token := Issued(token, email.value, poolId, now)];
    var masked := MaskEmail(email.value);
    if masked.None? {
      return Generic, mailed;
    }
    if sesOk {
      mailed := masked;
    }
    return Generic, mailed;
  }
}
