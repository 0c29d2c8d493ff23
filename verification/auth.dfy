/** The bearer-token gate in front of the transaction endpoints
    (server/middleware/auth.ts): the `Authorization: Bearer` scheme of
    section 2.1 of RFC 6750. It accepts or refuses, and on acceptance hands the
    token's client and scope on; it checks no scope itself. */
module Auth {
  import opened Wrappers
  import Jwt

  /** The exact, case-sensitive prefix the header must start with. */
  const BearerPrefix: string := "Bearer "
  const MissingOrInvalidHeader: string := "Missing or invalid authorization header"

  datatype AuthOutcome =
    | Authenticated(clientId: string, scope: string)
    | Rejected(status: nat, error: string)

  /** `authMiddleware`: refuses a missing header or one without the prefix,
      verifies the rest of the header after its first seven characters, and
      reports any verification failure as one message. */
  function AuthMiddleware(header: Option<string>, key: string, now: nat): (r: AuthOutcome)
    ensures r.Rejected? ==> r.status == 401
    ensures r == Rejected(401, MissingOrInvalidHeader) <==> header.None? || !(BearerPrefix <= header.value)
    ensures r == Rejected(401, Jwt.InvalidOrExpired) <==>
              header.Some? && BearerPrefix <= header.value
              && Jwt.VerifyAccessToken(key, header.value[|BearerPrefix|..], now).Err?
    ensures r.Authenticated? ==>
              exists c :: header == Some(BearerPrefix + Jwt.Sign(key, c)) && Jwt.Acceptable(c, now)
                          && r.clientId == c.clientId && r.scope == c.scope
  {
    if header.None? || !(BearerPrefix <= header.value) then
      Rejected(401, MissingOrInvalidHeader)
    else
      var token := header.value[7..];
      match Jwt.VerifyAccessToken(key, token, now)
      case Err(_) => Rejected(401, Jwt.InvalidOrExpired)
      case Ok(c) =>
        assert header.value == BearerPrefix + Jwt.Sign(key, c);
        Authenticated(c.clientId, c.scope)
  }

  /** A header carrying a freshly issued token is accepted, with that token's
      client and scope, exactly until the token expires; afterwards it is
      refused with the single invalid-or-expired message. */
  lemma IssuedTokenPassesGate(key: string, clientId: string, scope: string, issuedAt: nat, now: nat)
    ensures AuthMiddleware(Some(BearerPrefix + Jwt.GenerateAccessToken(key, clientId, scope, issuedAt)), key, now)
         == if now / 1000 < issuedAt / 1000 + Jwt.GetTokenExpiry() then Authenticated(clientId, scope)
            else Rejected(401, Jwt.InvalidOrExpired)
  {
    var token := Jwt.GenerateAccessToken(key, clientId, scope, issuedAt);
    assert (BearerPrefix + token)[7..] == token;
    Jwt.VerifySigned(key, Jwt.IssuedClaims(clientId, scope, issuedAt), now);
  }

  /** The prefix is case-sensitive: a lower-case scheme name is refused before
      any verification. */
  lemma LowerCaseSchemeRefused(token: string, key: string, now: nat)
    ensures AuthMiddleware(Some("bearer " + token), key, now) == Rejected(401, MissingOrInvalidHeader)
  {
    assert ("bearer " + token)[0] == 'b';
  }
}
