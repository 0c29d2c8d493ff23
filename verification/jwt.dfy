/** Access-token claims and their signing and verification
    (server/services/jwtService.ts). A token carries the registered claims
    `iss`, `aud` and `exp` of sections 4.1.1, 4.1.3 and 4.1.4 of RFC 7519, the
    issue time `iat`, and the private claims `clientId`, `scope` and `type`.

    The cryptography is not modelled. A token is the framed claim encoding
    followed by a framed tag `Mac(key, payload)`; verification recomputes the
    tag and compares, as an HMAC check does. `Mac` is a deterministic stand-in
    and no property of it beyond being a function of key and payload is used. */
module Jwt {
  import opened Wrappers
  import opened Encoding

  const Issuer: string := "authvault"
  const Audience: string := "authvault-api"
  const AccessTokenType: string := "access_token"
  /** `ACCESS_TOKEN_EXPIRY = "1h"`, in seconds. */
  const AccessTokenLifetime: nat := 60 * 60
  /** The one message every verification failure is reported with. */
  const InvalidOrExpired: string := "Invalid or expired token"

  /** The payload of an access token; `iat` and `exp` are in whole seconds. */
  datatype Claims = Claims(
    clientId: string,
    scope: string,
    tokenType: string,
    iss: string,
    aud: string,
    iat: nat,
    exp: nat)

  function ClaimFields(c: Claims): seq<string> {
    [c.clientId, c.scope, c.tokenType, c.iss, c.aud, NatToDecimal(c.iat), NatToDecimal(c.exp)]
  }

  function EncodeClaims(c: Claims): string {
    EncodeFields(ClaimFields(c))
  }

  /** The claims a list of seven decoded fields names, when both times are
      canonical decimals. */
  function ClaimsOf(fs: seq<string>): (r: Option<Claims>)
    requires |fs| == 7
    ensures r.Some? ==> ClaimFields(r.value) == fs
  {
    match (ParseNat(fs[5]), ParseNat(fs[6]))
    case (Some(iat), Some(exp)) =>
      var c := Claims(fs[0], fs[1], fs[2], fs[3], fs[4], iat, exp);
      assert ClaimFields(c) == [fs[0], fs[1], fs[2], fs[3], fs[4], fs[5], fs[6]];
      Some(c)
    case _ => None
  }

  function DecodeClaims(p: string): Option<Claims> {
    match ParseFields(p, 7)
    case None => None
    case Some((fs, rest)) => if rest != "" then None else ClaimsOf(fs)
  }

  /** Every payload the decoder accepts is the encoding of the claims it returns. */
  lemma DecodeClaimsInverse(p: string)
    requires DecodeClaims(p).Some?
    ensures p == EncodeClaims(DecodeClaims(p).value)
  {
    ParseFieldsInverse(p, 7);
  }

  lemma ClaimsRoundTrip(c: Claims)
    ensures DecodeClaims(EncodeClaims(c)) == Some(c)
  {
    FieldsRoundTrip(ClaimFields(c), "");
    assert EncodeClaims(c) + "" == EncodeClaims(c);
    ParseNatRoundTrip(c.iat);
    ParseNatRoundTrip(c.exp);
  }

  /** Stand-in for the keyed signature: a checksum of key and payload. */
  function Mac(key: string, payload: string): string {
    NatToDecimal(Checksum(Field(key) + payload))
  }

  function Checksum(s: string): nat {
    if |s| == 0 then 0 else (Checksum(s[..|s| - 1]) * 31 + s[|s| - 1] as int) % 0x1_0000_0000
  }

  /** The signed token: the framed payload followed by its framed tag. */
  function Sign(key: string, c: Claims): string {
    var payload := EncodeClaims(c);
    EncodeFields([payload, Mac(key, payload)])
  }

  /** Signing is injective: a token determines its claims. */
  lemma SignInjective(key: string, c1: Claims, c2: Claims)
    requires Sign(key, c1) == Sign(key, c2)
    ensures c1 == c2
  {
    var p1, p2 := EncodeClaims(c1), EncodeClaims(c2);
    FieldsRoundTrip([p1, Mac(key, p1)], "");
    FieldsRoundTrip([p2, Mac(key, p2)], "");
    assert Sign(key, c1) + "" == Sign(key, c1);
    assert Sign(key, c2) + "" == Sign(key, c2);
    ClaimsRoundTrip(c1);
    ClaimsRoundTrip(c2);
  }

  /** Why a token was refused. The reasons are told apart here only; the
      service reports all of them with one message. */
  datatype Rejection = Malformed | BadSignature | TokenExpired | WrongAudience | WrongIssuer | WrongType

  /** The claim checks a correctly signed token must pass at time `now`
      (milliseconds): not expired (the verifier's clock is in whole seconds and
      a token is expired from its `exp` second on), the expected audience and
      issuer, and the access-token type. */
  predicate Acceptable(c: Claims, now: nat) {
    && now / 1000 < c.exp
    && c.aud == Audience
    && c.iss == Issuer
    && c.tokenType == AccessTokenType
  }

  /** The verifier with its reason for refusing: decoding, then the signature,
      then expiry, audience and issuer, then the `type` claim. */
  function Check(key: string, token: string, now: nat): (r: Result<Claims, Rejection>)
    ensures r.Ok? ==> token == Sign(key, r.value) && Acceptable(r.value, now)
  {
    match ParseFields(token, 2)
    case None => Err(Malformed)
    case Some((fs, rest)) =>
      if rest != "" then Err(Malformed)
      else if fs[1] != Mac(key, fs[0]) then Err(BadSignature)
      else
        match DecodeClaims(fs[0])
        case None => Err(Malformed)
        case Some(c) =>
          if now / 1000 >= c.exp then Err(TokenExpired)
          else if c.aud != Audience then Err(WrongAudience)
          else if c.iss != Issuer then Err(WrongIssuer)
          else if c.tokenType != AccessTokenType then Err(WrongType)
          else
            DecodeClaimsInverse(fs[0]);
            ParseFieldsInverse(token, 2);
            assert fs == [fs[0], fs[1]];
            Ok(c)
  }

  /** `verifyAccessToken`: the claims of a valid token, or the single message
      "Invalid or expired token". */
  function VerifyAccessToken(key: string, token: string, now: nat): (r: Result<Claims, string>)
    ensures r.Ok? ==> token == Sign(key, r.value) && Acceptable(r.value, now)
    ensures r.Err? ==> r.error == InvalidOrExpired
  {
    match Check(key, token, now)
    case Ok(c) => Ok(c)
    case Err(_) => Err(InvalidOrExpired)
  }

  /** Verification accepts a signed token exactly when its claims are acceptable,
      and then returns those claims. */
  lemma VerifySigned(key: string, c: Claims, now: nat)
    ensures VerifyAccessToken(key, Sign(key, c), now)
         == if Acceptable(c, now) then Ok(c) else Err(InvalidOrExpired)
  {
    var payload := EncodeClaims(c);
    FieldsRoundTrip([payload, Mac(key, payload)], "");
    assert Sign(key, c) + "" == Sign(key, c);
    ClaimsRoundTrip(c);
  }

  /** The claims `generateAccessToken` signs at time `now`: `iat` is the current
      second and `exp` one hour later. */
  function IssuedClaims(clientId: string, scope: string, now: nat): (c: Claims)
    ensures c.clientId == clientId && c.scope == scope && c.iat == now / 1000
    ensures forall later: nat :: Acceptable(c, later) <==> later / 1000 < c.iat + GetTokenExpiry()
  {
    Claims(clientId, scope, AccessTokenType, Issuer, Audience, now / 1000, now / 1000 + AccessTokenLifetime)
  }

  /** `generateAccessToken`: the signed claims; at the instant it is issued
      the token verifies to exactly those claims. */
  function GenerateAccessToken(key: string, clientId: string, scope: string, now: nat): (token: string)
    ensures VerifyAccessToken(key, token, now) == Ok(IssuedClaims(clientId, scope, now))
  {
    VerifySigned(key, IssuedClaims(clientId, scope, now), now);
    Sign(key, IssuedClaims(clientId, scope, now))
  }

  /** `getTokenExpiry`: the `expires_in` the token endpoint advertises, which
      is the lifetime the signer puts between `iat` and `exp`. */
  function GetTokenExpiry(): (seconds: nat)
    ensures seconds == AccessTokenLifetime
  {
    3600
  }

  /** Round trip: a freshly generated token verifies, with the same client and
      scope, exactly until `getTokenExpiry()` seconds after the second it was
      issued in. */
  lemma GeneratedTokenRoundTrip(key: string, clientId: string, scope: string, issuedAt: nat, now: nat)
    ensures VerifyAccessToken(key, GenerateAccessToken(key, clientId, scope, issuedAt), now).Ok?
        <==> now / 1000 < issuedAt / 1000 + GetTokenExpiry()
    ensures VerifyAccessToken(key, GenerateAccessToken(key, clientId, scope, issuedAt), now).Ok? ==>
              && VerifyAccessToken(key, GenerateAccessToken(key, clientId, scope, issuedAt), now).value.clientId == clientId
              && VerifyAccessToken(key, GenerateAccessToken(key, clientId, scope, issuedAt), now).value.scope == scope
  {
    VerifySigned(key, IssuedClaims(clientId, scope, issuedAt), now);
  }

  /** Whatever the cause, a refused token is reported with one message; and a
      token whose issuer, audience or type is wrong is refused even when it
      carries a valid tag. */
  lemma WrongClaimsRejected(key: string, c: Claims, now: nat)
    requires c.iss != Issuer || c.aud != Audience || c.tokenType != AccessTokenType
    ensures VerifyAccessToken(key, Sign(key, c), now) == Err(InvalidOrExpired)
  {
    VerifySigned(key, c, now);
  }
}
