/** The token lifecycle service (server/services/oauthService.ts): issuing
    access tokens under the client-credentials grant of section 4.4 of
    RFC 6749, creating single-use transaction tokens with their transaction
    records, and redeeming a transaction token once. Each operation is a
    transition of the store; a failure returns an error and no store, so a
    failed call leaves the store as it was. */
module OAuth {
  import opened Wrappers
  import opened Uuids
  import opened Schema
  import opened Storage
  import Jwt

  const BearerTokenType: string := "Bearer"
  /** `10 * 60 * 1000`: a transaction token lives ten minutes. */
  const TransactionTokenLifetimeMs: nat := 10 * 60 * 1000

  datatype TokenResponse = TokenResponse(accessToken: string, tokenType: string, expiresIn: nat)
  datatype InitiateResponse = InitiateResponse(transactionToken: string)
  datatype ValidateResponse = ValidateResponse(valid: bool, transactionToken: string, clientId: string)

  /** The errors the service throws, each with its message; a refusal of the
      store passes through with the store's message. */
  datatype ServiceError =
    | InvalidClientCredentials
    | ClientInactive
    | InvalidScope
    | InvalidClient
    | NotPermittedToInitiate
    | InvalidTransactionToken
    | TokenAlreadyUsed
    | TokenExpired
    | Database(cause: DbError)
  {
    function Message(): string {
      match this
      case InvalidClientCredentials => "Invalid client credentials"
      case ClientInactive => "Client is inactive"
      case InvalidScope => "Invalid scope for client"
      case InvalidClient => "Invalid client"
      case NotPermittedToInitiate => "Client does not have permission to initiate transactions"
      case InvalidTransactionToken => "Invalid transaction token"
      case TokenAlreadyUsed => "Transaction token has already been used"
      case TokenExpired => "Transaction token has expired"
      case Database(e) => e.Message()
    }
  }

  // ------------------------------------------------------ access tokens

  /** The checks before an access token is issued, first failure wins: both
      credentials must be UUIDs (the database refuses other text), a client
      must match both, it must be active, and the requested scope must be
      exactly its registered scope. */
  function CheckClient(s: Store, clientId: string, clientSecret: string, scope: string)
    : (r: Result<Client, ServiceError>)
    ensures r.Err? && r.error.Database? <==> Parse(clientId).None? || Parse(clientSecret).None?
    ensures r.Err? && r.error.Database? ==>
              r.error.cause == InvalidUuid(if Parse(clientId).None? then clientId else clientSecret)
    ensures r == Err(InvalidClientCredentials) <==>
              && Parse(clientId).Some? && Parse(clientSecret).Some?
              && !exists i :: 0 <= i < |s.clients| && Denotes(clientId, s.clients[i].clientId)
                              && Denotes(clientSecret, s.clients[i].clientSecret)
    ensures r.Ok? ==> r.value in s.clients && Denotes(clientId, r.value.clientId)
                      && Denotes(clientSecret, r.value.clientSecret)
                      && r.value.isActive && r.value.scope == scope
    ensures r.Err? ==> r.error in {InvalidClientCredentials, ClientInactive, InvalidScope} || r.error.Database?
  {
    match GetClientByCredentials(s, clientId, clientSecret)
    case Err(e) => Err(Database(e))
    case Ok(None) => Err(InvalidClientCredentials)
    case Ok(Some(c)) =>
      if !c.isActive then Err(ClientInactive)
      else if c.scope != scope then Err(InvalidScope)
      else Ok(c)
  }

  /** The audit row kept for an issued token: the token, the client's UUID,
      the scope and the issue instant, expiring in the same second as the
      token's own `exp` claim. */
  function AuditRecord(token: string, clientId: Uuid, scope: string, now: nat): (a: AccessTokenRecord)
    ensures a == AccessTokenRecord(token, clientId, scope, a.expiresAt, now)
    ensures a.expiresAt / 1000 == Jwt.IssuedClaims(clientId, scope, now).iat + Jwt.GetTokenExpiry()
  {
    AccessTokenRecord(token, clientId, scope, now + Jwt.GetTokenExpiry() * 1000, now)
  }

  /** The response of a successful issuance: a bearer token for `expires_in`
      3600 seconds that verifies, at the instant of issuance, to exactly the
      claims issued for the client id as presented and the scope. */
  predicate IssuedResponse(key: string, resp: TokenResponse, clientId: string, scope: string, now: nat) {
    && resp.tokenType == "Bearer" && resp.expiresIn == 3600
    && Jwt.VerifyAccessToken(key, resp.accessToken, now) == Ok(Jwt.IssuedClaims(clientId, scope, now))
  }

  /** The client rows after an issuance: every row the presented id names has
      its `lastActivity` stamped, and no other row changes. */
  predicate ActivityStamped(s: Store, s': Store, clientId: string, now: nat) {
    && |s'.clients| == |s.clients|
    && forall i :: 0 <= i < |s.clients| ==>
         s'.clients[i] == if Denotes(clientId, s.clients[i].clientId)
                          then s.clients[i].(lastActivity := Some(now)) else s.clients[i]
  }

  /** `generateAccessToken` exactly as written: the audit insert must succeed,
      so a second issuance that signs the identical token fails on the unique
      `access_tokens.token` column. The token's `clientId` claim is the text
      presented; the audit row and the activity stamp use the UUID it names. */
  function GenerateAccessTokenAsWritten(s: Store, key: string, clientId: string, clientSecret: string, scope: string, now: nat)
    : (r: Result<(TokenResponse, Store), ServiceError>)
    ensures CheckClient(s, clientId, clientSecret, scope).Err? ==> r == Err(CheckClient(s, clientId, clientSecret, scope).error)
    ensures r == Err(Database(UniqueViolation(AccessTokenUnique))) <==>
              CheckClient(s, clientId, clientSecret, scope).Ok?
              && Jwt.GenerateAccessToken(key, clientId, scope, now) in s.accessTokens
    ensures r.Ok? <==>
              CheckClient(s, clientId, clientSecret, scope).Ok?
              && Jwt.GenerateAccessToken(key, clientId, scope, now) !in s.accessTokens
    ensures r.Ok? ==>
      var (resp, s') := r.value;
      && Parse(clientId).Some?
      && IssuedResponse(key, resp, clientId, scope, now)
      && resp.accessToken !in s.accessTokens
      && s'.accessTokens == s.accessTokens[resp.accessToken :=
           AccessTokenRecord(resp.accessToken, Parse(clientId).value, scope, now + 3600 * 1000, now)]
      && ActivityStamped(s, s', clientId, now)
      && s'.nextClientRowId == s.nextClientRowId
      && s'.transactionTokens == s.transactionTokens
      && s'.transactions == s.transactions
    ensures r.Ok? && Valid(s) ==> Valid(r.value.1)
  {
    match CheckClient(s, clientId, clientSecret, scope)
    case Err(e) => Err(e)
    case Ok(c) =>
      var token := Jwt.GenerateAccessToken(key, clientId, scope, now);
      match CreateAccessToken(s, AuditRecord(token, c.clientId, scope, now))
      case Err(e) => Err(Database(e))
      case Ok(s1) => Ok((TokenResponse(token, BearerTokenType, Jwt.GetTokenExpiry()), UpdateClientActivity(s1, c.clientId, now)))
  }

  /** After an issuance as written, the client still passes the checks and
      the signed token is in the log. */
  lemma IssuedAsWrittenIsLogged(s: Store, key: string, clientId: string, clientSecret: string, scope: string, now: nat)
    requires Valid(s)
    requires GenerateAccessTokenAsWritten(s, key, clientId, clientSecret, scope, now).Ok?
    ensures var s1 := GenerateAccessTokenAsWritten(s, key, clientId, clientSecret, scope, now).value.1;
            && CheckClient(s1, clientId, clientSecret, scope).Ok?
            && Jwt.GenerateAccessToken(key, clientId, scope, now) in s1.accessTokens
  {
    var c := CheckClient(s, clientId, clientSecret, scope).value;
    var s1 := GenerateAccessTokenAsWritten(s, key, clientId, clientSecret, scope, now).value.1;
    var k :| 0 <= k < |s.clients| && s.clients[k] == c;
    assert s1.clients[k] == c.(lastActivity := Some(now));
    ClientLookupsAgree(s1, s1.clients[k], clientId, clientSecret);
  }

  /** Issuing twice for the same client and scope within one second signs the
      same token, and the second issuance is refused although the client is
      valid, active and asks for its own scope. */
  lemma SameSecondReissueFailsAsWritten(s: Store, key: string, clientId: string, clientSecret: string, scope: string, t1: nat, t2: nat)
    requires Valid(s)
    requires GenerateAccessTokenAsWritten(s, key, clientId, clientSecret, scope, t1).Ok?
    requires t1 / 1000 == t2 / 1000
    ensures var s1 := GenerateAccessTokenAsWritten(s, key, clientId, clientSecret, scope, t1).value.1;
            GenerateAccessTokenAsWritten(s1, key, clientId, clientSecret, scope, t2)
              == Err(Database(UniqueViolation(AccessTokenUnique)))
  {
    var s1 := GenerateAccessTokenAsWritten(s, key, clientId, clientSecret, scope, t1).value.1;
    IssuedAsWrittenIsLogged(s, key, clientId, clientSecret, scope, t1);
    assert Jwt.IssuedClaims(clientId, scope, t1) == Jwt.IssuedClaims(clientId, scope, t2);
    assert Jwt.GenerateAccessToken(key, clientId, scope, t2) in s1.accessTokens;
  }

  /** `generateAccessToken` with the audit insert made best-effort: when the
      identical token is already logged, its row is kept and issuance goes
      on. Every other step is as written. */
  function GenerateAccessToken(s: Store, key: string, clientId: string, clientSecret: string, scope: string, now: nat)
    : (r: Result<(TokenResponse, Store), ServiceError>)
    ensures r.Err? <==> CheckClient(s, clientId, clientSecret, scope).Err?
    ensures r.Err? ==> r.error == CheckClient(s, clientId, clientSecret, scope).error
    ensures r.Ok? ==>
      var (resp, s') := r.value;
      && Parse(clientId).Some?
      && IssuedResponse(key, resp, clientId, scope, now)
      && s'.accessTokens.Keys == s.accessTokens.Keys + {resp.accessToken}
      && (resp.accessToken in s.accessTokens ==> s'.accessTokens == s.accessTokens)
      && (resp.accessToken !in s.accessTokens ==>
            s'.accessTokens == s.accessTokens[resp.accessToken :=
              AccessTokenRecord(resp.accessToken, Parse(clientId).value, scope, now + 3600 * 1000, now)])
      && ActivityStamped(s, s', clientId, now)
      && s'.nextClientRowId == s.nextClientRowId
      && s'.transactionTokens == s.transactionTokens
      && s'.transactions == s.transactions
    ensures r.Ok? && Valid(s) ==> Valid(r.value.1)
  {
    match CheckClient(s, clientId, clientSecret, scope)
    case Err(e) => Err(e)
    case Ok(c) =>
      var token := Jwt.GenerateAccessToken(key, clientId, scope, now);
      var s1 := match CreateAccessToken(s, AuditRecord(token, c.clientId, scope, now))
                case Ok(s1) => s1
                case Err(_) => s;
      Ok((TokenResponse(token, BearerTokenType, Jwt.GetTokenExpiry()), UpdateClientActivity(s1, c.clientId, now)))
  }

  /** Both issuances agree except where the identical token is already
      logged: issuance succeeds (best-effort) exactly for the secret of an
      active client asking for its own scope, each credential in any spelling
      of its UUID; as written it also needs the token not yet logged. */
  lemma IssuanceSucceedsIff(s: Store, key: string, clientId: string, clientSecret: string, scope: string, now: nat)
    requires Valid(s)
    ensures GenerateAccessToken(s, key, clientId, clientSecret, scope, now).Ok? <==>
              exists c :: c in s.clients && Denotes(clientId, c.clientId) && Denotes(clientSecret, c.clientSecret)
                          && c.isActive && c.scope == scope
    ensures GenerateAccessTokenAsWritten(s, key, clientId, clientSecret, scope, now).Ok? <==>
              && (exists c :: c in s.clients && Denotes(clientId, c.clientId) && Denotes(clientSecret, c.clientSecret)
                              && c.isActive && c.scope == scope)
              && Jwt.GenerateAccessToken(key, clientId, scope, now) !in s.accessTokens
  {
    if Parse(clientId).Some? && Parse(clientSecret).Some? {
      var found := GetClientByCredentials(s, clientId, clientSecret).value;
      if found.Some? {
        forall c | c in s.clients && Denotes(clientId, c.clientId) && Denotes(clientSecret, c.clientSecret)
          ensures c == found.value
        {
          ClientLookupsAgree(s, c, clientId, clientSecret);
        }
      }
    }
  }

  /** With the best-effort audit, the request that failed as written succeeds:
      a second issuance in the same second hands out the same, still valid,
      token again. */
  lemma SameSecondReissueSucceeds(s: Store, key: string, clientId: string, clientSecret: string, scope: string, t1: nat, t2: nat)
    requires Valid(s)
    requires GenerateAccessToken(s, key, clientId, clientSecret, scope, t1).Ok?
    requires t1 / 1000 == t2 / 1000
    ensures var first := GenerateAccessToken(s, key, clientId, clientSecret, scope, t1).value;
            var second := GenerateAccessToken(first.1, key, clientId, clientSecret, scope, t2);
            second.Ok? && second.value.0.accessToken == first.0.accessToken
  {
    var c := CheckClient(s, clientId, clientSecret, scope).value;
    var s1 := GenerateAccessToken(s, key, clientId, clientSecret, scope, t1).value.1;
    var k :| 0 <= k < |s.clients| && s.clients[k] == c;
    assert s1.clients[k] == c.(lastActivity := Some(t1));
    ClientLookupsAgree(s1, s1.clients[k], clientId, clientSecret);
    assert CheckClient(s1, clientId, clientSecret, scope).Ok?;
    assert Jwt.IssuedClaims(clientId, scope, t1) == Jwt.IssuedClaims(clientId, scope, t2);
    assert GenerateAccessToken(s, key, clientId, clientSecret, scope, t1).value.0.accessToken
        == Jwt.GenerateAccessToken(key, clientId, scope, t1);
    assert GenerateAccessToken(s1, key, clientId, clientSecret, scope, t2).value.0.accessToken
        == Jwt.GenerateAccessToken(key, clientId, scope, t2);
  }

  /** The order of the refusals for a request naming an existing client whose
      state or scope disqualifies it: a secret that is no UUID is refused by
      the database, a wrong secret as invalid credentials, and only the right
      secret (in any spelling) reaches "inactive", then "invalid scope". Both
      issuances refuse alike. */
  lemma InactiveOrWrongScopeRefused(s: Store, key: string, c: Client, clientId: string, clientSecret: string,
                                    scope: string, now: nat)
    requires Valid(s) && c in s.clients && Denotes(clientId, c.clientId)
    requires !c.isActive || c.scope != scope
    ensures GenerateAccessToken(s, key, clientId, clientSecret, scope, now)
         == Err(if Parse(clientSecret).None? then Database(InvalidUuid(clientSecret))
                else if !Denotes(clientSecret, c.clientSecret) then InvalidClientCredentials
                else if !c.isActive then ClientInactive
                else InvalidScope)
    ensures GenerateAccessTokenAsWritten(s, key, clientId, clientSecret, scope, now)
         == GenerateAccessToken(s, key, clientId, clientSecret, scope, now)
  {
    ClientLookupsAgree(s, c, clientId, clientSecret);
  }

  // ------------------------------------------------- transaction tokens

  /** `generateTransactionToken`: for an existing, active client registered
      with `initiate_transaction`, named by any spelling of its UUID, creates
      the unused token `token` (a fresh random UUID in the source) expiring ten
      minutes from now, and an `initiated` transaction carrying that token's
      output form with the client as initiator. Text that is no UUID is
      refused by the database. */
  function GenerateTransactionToken(s: Store, clientId: string, now: nat, token: Uuid)
    : (r: Result<(InitiateResponse, Store), ServiceError>)
    ensures r == Err(Database(InvalidUuid(clientId))) <==> Parse(clientId).None?
    ensures r == Err(InvalidClient) <==>
              Parse(clientId).Some? && !exists i :: 0 <= i < |s.clients| && Denotes(clientId, s.clients[i].clientId)
    ensures r == Err(ClientInactive) <==>
              GetClientById(s, clientId).Ok? && GetClientById(s, clientId).value.Some?
              && !GetClientById(s, clientId).value.value.isActive
    ensures r == Err(NotPermittedToInitiate) <==>
              GetClientById(s, clientId).Ok? && GetClientById(s, clientId).value.Some?
              && GetClientById(s, clientId).value.value.isActive
              && GetClientById(s, clientId).value.value.scope != InitiateTransaction
    ensures r.Ok? <==>
              && GetClientById(s, clientId).Ok? && GetClientById(s, clientId).value.Some?
              && GetClientById(s, clientId).value.value.isActive
              && GetClientById(s, clientId).value.value.scope == InitiateTransaction
              && token !in s.transactionTokens
    ensures r.Ok? ==>
      var (resp, s') := r.value;
      && Parse(clientId).Some?
      && resp.transactionToken == token
      && s'.transactionTokens == s.transactionTokens[token :=
           TransactionToken(token, Parse(clientId).value, false, now + 600000, now, None)]
      && s'.transactions == s.transactions + [Transaction(token, Parse(clientId).value, None, Initiated, now, None)]
      && s'.clients == s.clients
      && s'.nextClientRowId == s.nextClientRowId
      && s'.accessTokens == s.accessTokens
    ensures r.Ok? && Valid(s) ==> Valid(r.value.1)
  {
    match GetClientById(s, clientId)
    case Err(e) => Err(Database(e))
    case Ok(None) => Err(InvalidClient)
    case Ok(Some(c)) =>
      if !c.isActive then Err(ClientInactive)
      else if c.scope != InitiateTransaction then Err(NotPermittedToInitiate)
      else
        match CreateTransactionToken(s, c.clientId, now + TransactionTokenLifetimeMs, token, now)
        case Err(e) => Err(Database(e))
        case Ok((t, s1)) =>
          var (_, s2) := CreateTransaction(s1, t.token, c.clientId, Initiated, now);
          Ok((InitiateResponse(t.token), s2))
  }

  /** The checks before a transaction token is redeemed, first failure wins:
      the text must be a UUID (the database refuses other text), a token row
      must carry it, the token must be unused, and its expiry instant must not
      have passed (a token is still good at its expiry instant). */
  function CheckTransactionToken(s: Store, token: string, now: nat): (r: Result<TransactionToken, ServiceError>)
    ensures r == Err(Database(InvalidUuid(token))) <==> Parse(token).None?
    ensures r == Err(InvalidTransactionToken) <==> Parse(token).Some? && Parse(token).value !in s.transactionTokens
    ensures r == Err(TokenAlreadyUsed) <==>
              Parse(token).Some? && Parse(token).value in s.transactionTokens
              && s.transactionTokens[Parse(token).value].isUsed
    ensures r == Err(TokenExpired) <==>
              Parse(token).Some? && Parse(token).value in s.transactionTokens
              && !s.transactionTokens[Parse(token).value].isUsed && now > s.transactionTokens[Parse(token).value].expiresAt
    ensures r.Ok? <==>
              Parse(token).Some? && Parse(token).value in s.transactionTokens
              && !s.transactionTokens[Parse(token).value].isUsed && now <= s.transactionTokens[Parse(token).value].expiresAt
    ensures r.Ok? ==> r.value == s.transactionTokens[Parse(token).value]
  {
    match GetTransactionToken(s, token)
    case Err(e) => Err(Database(e))
    case Ok(None) => Err(InvalidTransactionToken)
    case Ok(Some(t)) =>
      if t.isUsed then Err(TokenAlreadyUsed)
      else if now > t.expiresAt then Err(TokenExpired)
      else Ok(t)
  }

  /** `validateTransactionToken` exactly as written: the token row is found
      and marked used by the UUID the text names, but the transaction's status
      is set by comparing the text column `transaction_token` with the text as
      presented, so only the spelling stored at initiation (the output form)
      reaches the transaction. */
  function ValidateTransactionTokenAsWritten(s: Store, token: string, now: nat)
    : (r: Result<(ValidateResponse, Store), ServiceError>)
    ensures r.Err? <==> CheckTransactionToken(s, token, now).Err?
    ensures r.Err? ==> r.error == CheckTransactionToken(s, token, now).error
    ensures r.Ok? ==>
      var (resp, s') := r.value;
      var u := Parse(token).value;
      && u in s.transactionTokens
      && resp == ValidateResponse(true, token, s.transactionTokens[u].clientId)
      && s'.transactionTokens == s.transactionTokens[u := s.transactionTokens[u].(isUsed := true, usedAt := Some(now))]
      && |s'.transactions| == |s.transactions|
      && (forall i :: 0 <= i < |s.transactions| ==>
            s'.transactions[i] == if s.transactions[i].transactionToken == token
                                  then s.transactions[i].(status := Validated) else s.transactions[i])
      && s'.clients == s.clients
      && s'.nextClientRowId == s.nextClientRowId
      && s'.accessTokens == s.accessTokens
    ensures r.Ok? && Valid(s) ==> Valid(r.value.1)
  {
    match CheckTransactionToken(s, token, now)
    case Err(e) => Err(e)
    case Ok(t) =>
      var s1 := MarkTransactionTokenAsUsed(s, Parse(token).value, now);
      var s2 := UpdateTransactionStatus(s1, token, Validated);
      Ok((ValidateResponse(true, token, t.clientId), s2))
  }

  /** `validateTransactionToken` with the status update keyed, like the other
      two steps, by the UUID the text names: every transaction carrying that
      token (in the output form initiation stores) becomes `validated`. */
  function ValidateTransactionToken(s: Store, token: string, now: nat)
    : (r: Result<(ValidateResponse, Store), ServiceError>)
    ensures r.Err? <==> CheckTransactionToken(s, token, now).Err?
    ensures r.Err? ==> r.error == CheckTransactionToken(s, token, now).error
    ensures r.Ok? <==>
              Parse(token).Some? && Parse(token).value in s.transactionTokens
              && !s.transactionTokens[Parse(token).value].isUsed && now <= s.transactionTokens[Parse(token).value].expiresAt
    ensures r.Ok? ==>
      var (resp, s') := r.value;
      var u := Parse(token).value;
      && u in s.transactionTokens
      && resp == ValidateResponse(true, token, s.transactionTokens[u].clientId)
      && s'.transactionTokens == s.transactionTokens[u := s.transactionTokens[u].(isUsed := true, usedAt := Some(now))]
      && |s'.transactions| == |s.transactions|
      && (forall i :: 0 <= i < |s.transactions| ==>
            s'.transactions[i] == if s.transactions[i].transactionToken == u
                                  then s.transactions[i].(status := Validated) else s.transactions[i])
      && s'.clients == s.clients
      && s'.nextClientRowId == s.nextClientRowId
      && s'.accessTokens == s.accessTokens
    ensures r.Ok? && Valid(s) ==> Valid(r.value.1)
  {
    match CheckTransactionToken(s, token, now)
    case Err(e) => Err(e)
    case Ok(t) =>
      var u := Parse(token).value;
      var s1 := MarkTransactionTokenAsUsed(s, u, now);
      var s2 := UpdateTransactionStatus(s1, u, Validated);
      Ok((ValidateResponse(true, token, t.clientId), s2))
  }

  /** Presented in the output form, the token is validated alike by both:
      the two differ only for the other spellings of a UUID. */
  lemma ValidationsAgreeOnOutputForm(s: Store, token: Uuid, now: nat)
    ensures ValidateTransactionTokenAsWritten(s, token, now) == ValidateTransactionToken(s, token, now)
  {
    ParseCanonical(token);
  }

  /** Single use: once a validation has succeeded, every later validation of
      the same token, in any spelling and at any time, fails as already used,
      whichever of the two validations made or makes it. */
  lemma ValidateIsSingleUse(s: Store, token: string, now: nat, again: string, later: nat)
    requires ValidateTransactionToken(s, token, now).Ok?
    requires Parse(again) == Parse(token)
    ensures ValidateTransactionToken(ValidateTransactionToken(s, token, now).value.1, again, later)
         == Err(TokenAlreadyUsed)
    ensures ValidateTransactionTokenAsWritten(ValidateTransactionTokenAsWritten(s, token, now).value.1, again, later)
         == Err(TokenAlreadyUsed)
  {
  }

  /** Initiation and validation fit together: a token just created validates,
      in any of its spellings, exactly until its expiry instant, and names its
      initiating client in the output form. */
  lemma InitiateThenValidate(s: Store, clientId: string, t0: nat, token: Uuid, spelling: string, t1: nat)
    requires GenerateTransactionToken(s, clientId, t0, token).Ok?
    requires Denotes(spelling, token)
    ensures Parse(clientId).Some?
    ensures var s1 := GenerateTransactionToken(s, clientId, t0, token).value.1;
            && (ValidateTransactionToken(s1, spelling, t1).Ok? <==> t1 <= t0 + TransactionTokenLifetimeMs)
            && (ValidateTransactionToken(s1, spelling, t1).Ok? ==>
                  ValidateTransactionToken(s1, spelling, t1).value.0 == ValidateResponse(true, spelling, Parse(clientId).value))
            && (ValidateTransactionTokenAsWritten(s1, spelling, t1).Ok? <==> t1 <= t0 + TransactionTokenLifetimeMs)
  {
  }

  /** The gap in validation as written: a live token presented in braces
      (another spelling Postgres accepts for the same UUID) is redeemed, but
      the transaction initiation created keeps the status `initiated`. */
  lemma OtherSpellingLeavesInitiatedAsWritten(s: Store, clientId: string, t0: nat, token: Uuid, t1: nat)
    requires GenerateTransactionToken(s, clientId, t0, token).Ok?
    requires t1 <= t0 + TransactionTokenLifetimeMs
    ensures var s1 := GenerateTransactionToken(s, clientId, t0, token).value.1;
            var r := ValidateTransactionTokenAsWritten(s1, "{" + token + "}", t1);
            && r.Ok?
            && r.value.1.transactionTokens[token].isUsed
            && r.value.1.transactions[|s.transactions|].transactionToken == token
            && r.value.1.transactions[|s.transactions|].status == Initiated
  {
    OtherSpellings(token);
  }

  /** With the status update keyed by the UUID, the same request marks that
      transaction `validated`. */
  lemma OtherSpellingValidates(s: Store, clientId: string, t0: nat, token: Uuid, t1: nat)
    requires GenerateTransactionToken(s, clientId, t0, token).Ok?
    requires t1 <= t0 + TransactionTokenLifetimeMs
    ensures var s1 := GenerateTransactionToken(s, clientId, t0, token).value.1;
            var r := ValidateTransactionToken(s1, "{" + token + "}", t1);
            && r.Ok?
            && r.value.1.transactionTokens[token].isUsed
            && r.value.1.transactions[|s.transactions|].transactionToken == token
            && r.value.1.transactions[|s.transactions|].status == Validated
  {
    OtherSpellings(token);
  }
}
