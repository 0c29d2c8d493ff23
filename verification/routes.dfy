/** The HTTP layer of the token server (server/routes.ts): the request-shape
    checks of each endpoint, the calls into the service and the store, and the
    mapping of outcomes to status codes. Request bodies are JSON values; a
    handler returns its response and the store after the request. Of request
    logging only the one effect that changes a response is kept: the failure
    path of the token and initiate routes logs the body's `client_id` into a
    uuid column, and when that value is no UUID the log insert itself fails
    and the handler sends no response. The admin routes take the id of the
    user the session belongs to; a path parameter is the result of
    `parseInt`, `None` standing for NaN. */
module Routes {
  import opened Wrappers
  import opened Uuids
  import opened Schema
  import opened Storage
  import opened OAuth
  import Auth
  import Jwt

  datatype Json =
    | JNull
    | JBool(b: bool)
    | JNumber(n: int)
    | JString(str: string)
    | JArray(items: seq<Json>)
    | JObject(fields: map<string, Json>)

  datatype Body =
    | TokenBody(token: TokenResponse)
    | InitiateBody(initiate: InitiateResponse)
    | ValidateBody(validation: ValidateResponse)
    | ClientBody(client: Option<Client>)
    | TransactionsBody(transactions: seq<Transaction>)
    | ErrorBody(error: string)
    | NoContent

  /** What a handler sends: a response, or nothing, when its error handler
      itself fails. */
  datatype Response = Response(status: nat, body: Body) | Unanswered {
    predicate Is(code: nat) {
      Response? && status == code
    }
  }

  /** The one error body of the token endpoint, whatever went wrong. */
  const InvalidCredentialsBody: Body := ErrorBody("Invalid client credentials")
  /** Stands for the message of a request-shape error, which the source takes
      from the validation library's report. */
  const RequestShapeError: string := "Invalid request body"
  /** Status and message of the checked initiate route when the bearer does
      not speak for the client it names. */
  const ForbiddenStatus: nat := 403
  const BearerMismatch: string := "Access token does not authorize this client"
  const ScopeNotPermitted: string := "Access token scope does not permit this operation"
  const ClientNotFound: string := "Client not found"
  const DefaultTransactionLimit: nat := 10

  // ------------------------------------------------------ request shapes

  function Member(body: Json, name: string): Option<Json> {
    if body.JObject? && name in body.fields then Some(body.fields[name]) else None
  }

  /** A required string member. */
  function StringMember(body: Json, name: string): (r: Option<string>)
    ensures r.Some? <==> body.JObject? && name in body.fields && body.fields[name].JString?
    ensures r.Some? ==> body.fields[name] == JString(r.value)
  {
    match Member(body, name)
    case Some(JString(v)) => Some(v)
    case _ => None
  }

  predicate IsScope(v: string) {
    v == InitiateTransaction || v == ExecuteTransaction
  }

  datatype TokenRequest = TokenRequest(clientId: string, clientSecret: string, scope: string)

  /** The token endpoint's body: `grant_type` exactly "client_credentials",
      string `client_id` and `client_secret`, and a `scope` naming one of the
      two scopes; the request carries those three members' values. */
  function ParseTokenRequest(body: Json): (r: Option<TokenRequest>)
    ensures r.Some? <==>
              && StringMember(body, "grant_type") == Some("client_credentials")
              && StringMember(body, "client_id").Some?
              && StringMember(body, "client_secret").Some?
              && StringMember(body, "scope").Some? && IsScope(StringMember(body, "scope").value)
    ensures r.Some? ==>
              && body.fields["client_id"] == JString(r.value.clientId)
              && body.fields["client_secret"] == JString(r.value.clientSecret)
              && body.fields["scope"] == JString(r.value.scope)
              && IsScope(r.value.scope)
  {
    match (StringMember(body, "grant_type"), StringMember(body, "client_id"),
           StringMember(body, "client_secret"), StringMember(body, "scope"))
    case (Some(grant), Some(id), Some(secret), Some(scope)) =>
      if grant == "client_credentials" && IsScope(scope) then Some(TokenRequest(id, secret, scope)) else None
    case _ => None
  }

  /** An optional member: absent is fine, present must have the right type
      (a JSON null is not absent). `Some(None)` means absent. */
  function OptionalString(body: Json, name: string): Option<Option<string>> {
    match Member(body, name)
    case None => Some(None)
    case Some(JString(v)) => Some(Some(v))
    case Some(_) => None
  }

  function OptionalBool(body: Json, name: string): Option<Option<bool>> {
    match Member(body, name)
    case None => Some(None)
    case Some(JBool(v)) => Some(Some(v))
    case Some(_) => None
  }

  /** The admin update body: any object whose `name` (when present) is a
      string, whose `scope` is one of the two scopes and whose `isActive` is a
      boolean. The update sets exactly the members present, to their values;
      other members are dropped, so no other column can be reached from a
      request. */
  function ParseClientUpdate(body: Json): (r: Option<ClientUpdate>)
    ensures r.Some? <==>
              && body.JObject?
              && ("name" in body.fields ==> body.fields["name"].JString?)
              && ("scope" in body.fields ==> body.fields["scope"].JString? && IsScope(body.fields["scope"].str))
              && ("isActive" in body.fields ==> body.fields["isActive"].JBool?)
    ensures r.Some? ==>
              && r.value.name == (if "name" in body.fields then Some(body.fields["name"].str) else None)
              && r.value.scope == (if "scope" in body.fields then Some(body.fields["scope"].str) else None)
              && r.value.isActive == (if "isActive" in body.fields then Some(body.fields["isActive"].b) else None)
  {
    if !body.JObject? then None
    else
      match (OptionalString(body, "name"), OptionalString(body, "scope"), OptionalBool(body, "isActive"))
      case (Some(name), Some(scope), Some(active)) =>
        if scope.Some? && !IsScope(scope.value) then None
        else Some(ClientUpdate(name, scope, active))
      case _ => None
  }

  /** `insertClientSchema`: a string `name` and `scope` and an optional boolean
      `isActive`, carried over as given. Scope here is any string, as the
      column is free text. */
  function ParseNewClient(body: Json): (r: Option<NewClient>)
    ensures r.Some? <==>
              && StringMember(body, "name").Some? && StringMember(body, "scope").Some?
              && ("isActive" in body.fields ==> body.fields["isActive"].JBool?)
    ensures r.Some? ==>
              && body.fields["name"] == JString(r.value.name)
              && body.fields["scope"] == JString(r.value.scope)
              && r.value.isActive == (if "isActive" in body.fields then Some(body.fields["isActive"].b) else None)
  {
    match (StringMember(body, "name"), StringMember(body, "scope"), OptionalBool(body, "isActive"))
    case (Some(name), Some(scope), Some(active)) => Some(NewClient(name, scope, active))
    case _ => None
  }

  // ------------------------------------------------------ failure logging

  /** The failure path of the token and initiate routes logs `client_id` from
      the raw body into the uuid column `api_logs.client_id`. The insert goes
      through when the member is absent or null, or is a string naming a
      UUID; any other value (text that is no UUID, a number, a boolean, an
      array, an object) is refused by the database. */
  predicate LoggableClientId(body: Json) {
    match Member(body, "client_id")
    case None => true
    case Some(JNull) => true
    case Some(JString(v)) => Parse(v).Some?
    case Some(_) => false
  }

  /** The error handler of the token and initiate routes: log, then answer;
      when the log insert fails nothing is sent. */
  function Caught(body: Json, status: nat, error: string): (r: Response)
    ensures r == Unanswered <==> !LoggableClientId(body)
    ensures r != Unanswered ==> r == Response(status, ErrorBody(error))
  {
    if LoggableClientId(body) then Response(status, ErrorBody(error)) else Unanswered
  }

  // ------------------------------------------------------------ /oauth/token

  /** `POST /api/oauth/token`: every failure, of shape or of the service
      (the audit insert included), answers 401 with the same body and changes
      nothing, unless the body's `client_id` cannot be logged, in which case
      no response is sent; success answers the service's response unchanged. */
  function OAuthTokenRoute(s: Store, key: string, body: Json, now: nat): (r: (Response, Store))
    ensures r.0.Is(200) || r.0 == Response(401, InvalidCredentialsBody) || r.0 == Unanswered
    ensures !r.0.Is(200) ==> r.1 == s
    ensures r.0.Is(200) <==>
              ParseTokenRequest(body).Some?
              && var q := ParseTokenRequest(body).value;
                 GenerateAccessTokenAsWritten(s, key, q.clientId, q.clientSecret, q.scope, now).Ok?
    ensures r.0.Is(200) ==>
              var q := ParseTokenRequest(body).value;
              && r.0.body == TokenBody(GenerateAccessTokenAsWritten(s, key, q.clientId, q.clientSecret, q.scope, now).value.0)
              && r.1 == GenerateAccessTokenAsWritten(s, key, q.clientId, q.clientSecret, q.scope, now).value.1
    ensures !r.0.Is(200) ==> (r.0 == Unanswered <==> !LoggableClientId(body))
  {
    match ParseTokenRequest(body)
    case None => (Caught(body, 401, InvalidCredentialsBody.error), s)
    case Some(q) =>
      match GenerateAccessTokenAsWritten(s, key, q.clientId, q.clientSecret, q.scope, now)
      case Err(_) => (Caught(body, 401, InvalidCredentialsBody.error), s)
      case Ok((resp, s')) => (Response(200, TokenBody(resp)), s')
  }

  /** The body of a `client_credentials` grant request. */
  function GrantBody(clientId: string, clientSecret: string, scope: string): (body: Json)
    ensures IsScope(scope) ==> ParseTokenRequest(body) == Some(TokenRequest(clientId, clientSecret, scope))
    ensures Member(body, "client_id") == Some(JString(clientId))
  {
    JObject(map["grant_type" := JString("client_credentials"),
                "client_id" := JString(clientId),
                "client_secret" := JString(clientSecret),
                "scope" := JString(scope)])
  }

  /** The happy path of the grant: an active client presenting its id and
      secret, in any spelling of their UUIDs, and its own scope gets a bearer
      token that verifies to the id as presented and that scope, unless the
      identical token is already logged. */
  lemma TokenRouteServesActiveClient(s: Store, key: string, c: Client, clientId: string, clientSecret: string, now: nat)
    requires Valid(s) && c in s.clients && c.isActive && IsScope(c.scope)
    requires Denotes(clientId, c.clientId) && Denotes(clientSecret, c.clientSecret)
    requires Jwt.GenerateAccessToken(key, clientId, c.scope, now) !in s.accessTokens
    ensures var r := OAuthTokenRoute(s, key, GrantBody(clientId, clientSecret, c.scope), now);
            && r.0.Is(200)
            && r.0.body.TokenBody?
            && Jwt.VerifyAccessToken(key, r.0.body.token.accessToken, now).Ok?
            && Jwt.VerifyAccessToken(key, r.0.body.token.accessToken, now).value.clientId == clientId
            && Jwt.VerifyAccessToken(key, r.0.body.token.accessToken, now).value.scope == c.scope
  {
    var body := GrantBody(clientId, clientSecret, c.scope);
    IssuanceSucceedsIff(s, key, clientId, clientSecret, c.scope, now);
    assert c in s.clients && Denotes(clientId, c.clientId) && Denotes(clientSecret, c.clientSecret)
           && c.isActive && c.scope == c.scope;
    var issued := GenerateAccessTokenAsWritten(s, key, clientId, clientSecret, c.scope, now);
    assert issued.Ok?;
    var resp := issued.value.0;
    assert OAuthTokenRoute(s, key, body, now).0 == Response(200, TokenBody(resp));
    assert Jwt.VerifyAccessToken(key, resp.accessToken, now) == Ok(Jwt.IssuedClaims(clientId, c.scope, now));
  }

  /** The escape on the failure path: a token request whose `client_id` is a
      string but no UUID fails in the service, and then its log insert fails,
      so no response is sent. */
  lemma NonUuidClientIdUnanswered(s: Store, key: string, clientId: string, clientSecret: string, scope: string, now: nat)
    requires Parse(clientId).None?
    ensures OAuthTokenRoute(s, key, GrantBody(clientId, clientSecret, scope), now) == (Unanswered, s)
  {
  }

  // ------------------------------------------------- /transaction/initiate

  /** `POST /api/transaction/initiate` as written: once the bearer gate has
      accepted, only the body's `client_id` reaches the service; the bearer's
      own client and scope are not looked at. Shape and service failures
      answer 400 with the error's message and change nothing, unless the
      body's `client_id` cannot be logged, in which case nothing is sent. */
  function InitiateRoute(s: Store, key: string, header: Option<string>, body: Json, now: nat, token: Uuid)
    : (r: (Response, Store))
    ensures r.0.Is(401) <==> Auth.AuthMiddleware(header, key, now).Rejected?
    ensures r.0.Is(401) ==> r.0.body == ErrorBody(Auth.AuthMiddleware(header, key, now).error)
    ensures r.0.Is(200) || r.0.Is(400) || r.0.Is(401) || r.0 == Unanswered
    ensures !r.0.Is(200) ==> r.1 == s
    ensures r.0.Is(200) <==>
              Auth.AuthMiddleware(header, key, now).Authenticated?
              && StringMember(body, "client_id").Some?
              && GenerateTransactionToken(s, StringMember(body, "client_id").value, now, token).Ok?
    ensures r.0.Is(200) ==>
              && r.0.body == InitiateBody(GenerateTransactionToken(s, StringMember(body, "client_id").value, now, token).value.0)
              && r.1 == GenerateTransactionToken(s, StringMember(body, "client_id").value, now, token).value.1
    ensures r.0 == Unanswered <==>
              Auth.AuthMiddleware(header, key, now).Authenticated? && !r.0.Is(200) && !LoggableClientId(body)
    ensures r.0.Is(400) && StringMember(body, "client_id").Some? ==>
              r.0.body == ErrorBody(GenerateTransactionToken(s, StringMember(body, "client_id").value, now, token).error.Message())
  {
    match Auth.AuthMiddleware(header, key, now)
    case Rejected(status, error) => (Response(status, ErrorBody(error)), s)
    case Authenticated(_, _) =>
      match StringMember(body, "client_id")
      case None => (Caught(body, 400, RequestShapeError), s)
      case Some(clientId) =>
        match GenerateTransactionToken(s, clientId, now, token)
        case Err(e) => (Caught(body, 400, e.Message()), s)
        case Ok((resp, s')) => (Response(200, InitiateBody(resp)), s')
  }

  /** Which accepted bearer calls does not matter: any two accepted headers
      give the same response and store. */
  lemma InitiateIgnoresBearerIdentity(s: Store, key: string, h1: Option<string>, h2: Option<string>,
                                      body: Json, now: nat, token: Uuid)
    requires Auth.AuthMiddleware(h1, key, now).Authenticated?
    requires Auth.AuthMiddleware(h2, key, now).Authenticated?
    ensures InitiateRoute(s, key, h1, body, now, token) == InitiateRoute(s, key, h2, body, now, token)
  {
  }

  /** The gap in the route as written: a live token of any client, with any
      scope (an executor's included), initiates a transaction in the name of
      any active initiator whose id it puts in the body. */
  lemma ForeignBearerInitiatesAsWritten(s: Store, key: string, bearerClient: string, bearerScope: string,
                                        issuedAt: nat, now: nat, c: Client, token: Uuid)
    requires Valid(s) && c in s.clients && c.isActive && c.scope == InitiateTransaction
    requires token !in s.transactionTokens
    requires now / 1000 < issuedAt / 1000 + Jwt.AccessTokenLifetime
    ensures var header := Some(Auth.BearerPrefix + Jwt.GenerateAccessToken(key, bearerClient, bearerScope, issuedAt));
            InitiateRoute(s, key, header, JObject(map["client_id" := JString(c.clientId)]), now, token).0.Is(200)
  {
    Auth.IssuedTokenPassesGate(key, bearerClient, bearerScope, issuedAt, now);
    ParseCanonical(c.clientId);
    ClientLookupsAgree(s, c, c.clientId, c.clientSecret);
  }

  /** The bearer's own client id claim and the body's `client_id` name the
      same UUID. */
  predicate SameClient(claimed: string, named: string) {
    Parse(named).Some? && Parse(named) == Parse(claimed)
  }

  /** The initiate route with the check the API documentation announces
      ("only clients with proper scopes can initiate or validate
      transactions"): the accepted bearer must be the client named in the
      body and hold the `initiate_transaction` scope, or the request is
      refused with 403. */
  function InitiateRouteChecked(s: Store, key: string, header: Option<string>, body: Json, now: nat, token: Uuid)
    : (r: (Response, Store))
    ensures !r.0.Is(200) ==> r.1 == s
    ensures r.0.Is(200) ==>
              exists c :: && header == Some(Auth.BearerPrefix + Jwt.Sign(key, c)) && Jwt.Acceptable(c, now)
                          && StringMember(body, "client_id").Some?
                          && SameClient(c.clientId, StringMember(body, "client_id").value)
                          && c.scope == InitiateTransaction
    ensures r.0.Is(200) <==>
              && Auth.AuthMiddleware(header, key, now).Authenticated?
              && Auth.AuthMiddleware(header, key, now).scope == InitiateTransaction
              && StringMember(body, "client_id").Some?
              && SameClient(Auth.AuthMiddleware(header, key, now).clientId, StringMember(body, "client_id").value)
              && GenerateTransactionToken(s, StringMember(body, "client_id").value, now, token).Ok?
  {
    match Auth.AuthMiddleware(header, key, now)
    case Rejected(status, error) => (Response(status, ErrorBody(error)), s)
    case Authenticated(bearer, scope) =>
      match StringMember(body, "client_id")
      case None => (Caught(body, 400, RequestShapeError), s)
      case Some(clientId) =>
        if !SameClient(bearer, clientId) || scope != InitiateTransaction then
          (Response(ForbiddenStatus, ErrorBody(BearerMismatch)), s)
        else
          match GenerateTransactionToken(s, clientId, now, token)
          case Err(e) => (Caught(body, 400, e.Message()), s)
          case Ok((resp, s')) => (Response(200, InitiateBody(resp)), s')
  }

  /** With the check, a bearer token of one client cannot initiate for
      another: the request is refused with 403 and changes nothing. */
  lemma ForeignBearerRefusedChecked(s: Store, key: string, bearerClient: string, bearerScope: string,
                                    issuedAt: nat, now: nat, clientId: string, token: Uuid)
    requires !SameClient(bearerClient, clientId)
    requires now / 1000 < issuedAt / 1000 + Jwt.AccessTokenLifetime
    ensures var header := Some(Auth.BearerPrefix + Jwt.GenerateAccessToken(key, bearerClient, bearerScope, issuedAt));
            InitiateRouteChecked(s, key, header, JObject(map["client_id" := JString(clientId)]), now, token)
            == (Response(ForbiddenStatus, ErrorBody(BearerMismatch)), s)
  {
    Auth.IssuedTokenPassesGate(key, bearerClient, bearerScope, issuedAt, now);
    assert StringMember(JObject(map["client_id" := JString(clientId)]), "client_id") == Some(clientId);
  }

  // ------------------------------------------------- /transaction/validate

  /** `POST /api/transaction/validate`: behind the bearer gate, redeems the
      body's `transaction_token` with the service as written and answers its
      result; failures answer 400 with the error's message (for text that is
      no UUID, the database's syntax error) and change nothing. This route's
      failure log carries no client id, so it always answers. */
  function ValidateRoute(s: Store, key: string, header: Option<string>, body: Json, now: nat)
    : (r: (Response, Store))
    ensures r.0.Is(401) <==> Auth.AuthMiddleware(header, key, now).Rejected?
    ensures r.0.Is(200) || r.0.Is(400) || r.0.Is(401)
    ensures !r.0.Is(200) ==> r.1 == s
    ensures r.0.Is(200) <==>
              Auth.AuthMiddleware(header, key, now).Authenticated?
              && StringMember(body, "transaction_token").Some?
              && ValidateTransactionTokenAsWritten(s, StringMember(body, "transaction_token").value, now).Ok?
    ensures r.0.Is(200) ==>
              var t := StringMember(body, "transaction_token").value;
              && r.0.body == ValidateBody(ValidateResponse(true, t, s.transactionTokens[Parse(t).value].clientId))
              && r.1 == ValidateTransactionTokenAsWritten(s, t, now).value.1
    ensures r.0.Is(400) && StringMember(body, "transaction_token").Some? ==>
              r.0.body == ErrorBody(ValidateTransactionTokenAsWritten(s, StringMember(body, "transaction_token").value, now).error.Message())
    ensures Auth.AuthMiddleware(header, key, now).Authenticated? && StringMember(body, "transaction_token").Some?
            && Parse(StringMember(body, "transaction_token").value).None? ==>
              r.0 == Response(400, ErrorBody("invalid input syntax for type uuid: \"" + StringMember(body, "transaction_token").value + "\""))
  {
    match Auth.AuthMiddleware(header, key, now)
    case Rejected(status, error) => (Response(status, ErrorBody(error)), s)
    case Authenticated(_, _) =>
      match StringMember(body, "transaction_token")
      case None => (Response(400, ErrorBody(RequestShapeError)), s)
      case Some(t) =>
        match ValidateTransactionTokenAsWritten(s, t, now)
        case Err(e) => (Response(400, ErrorBody(e.Message())), s)
        case Ok((resp, s')) => (Response(200, ValidateBody(resp)), s')
  }

  /** Redeeming twice: once a token has been redeemed through the route, the
      same request again answers 400 "already been used". */
  lemma SecondValidateAnswersAlreadyUsed(s: Store, key: string, header: Option<string>, t: string, t1: nat, t2: nat)
    requires Auth.AuthMiddleware(header, key, t1).Authenticated?
    requires Auth.AuthMiddleware(header, key, t2).Authenticated?
    requires ValidateTransactionTokenAsWritten(s, t, t1).Ok?
    ensures var body := JObject(map["transaction_token" := JString(t)]);
            var first := ValidateRoute(s, key, header, body, t1);
            && first.0.Is(200)
            && ValidateRoute(first.1, key, header, body, t2).0
               == Response(400, ErrorBody(TokenAlreadyUsed.Message()))
  {
    var body := JObject(map["transaction_token" := JString(t)]);
    assert StringMember(body, "transaction_token") == Some(t);
    var s1 := ValidateTransactionTokenAsWritten(s, t, t1).value.1;
    assert ValidateRoute(s, key, header, body, t1).1 == s1;
    ValidateIsSingleUse(s, t, t1, t, t2);
  }

  /** The gap in the route as written: the bearer's scope is not looked at,
      so an initiator's live token redeems a transaction token too. */
  lemma InitiatorBearerValidatesAsWritten(s: Store, key: string, bearerClient: string, issuedAt: nat, now: nat, t: string)
    requires now / 1000 < issuedAt / 1000 + Jwt.AccessTokenLifetime
    requires ValidateTransactionTokenAsWritten(s, t, now).Ok?
    ensures var header := Some(Auth.BearerPrefix + Jwt.GenerateAccessToken(key, bearerClient, InitiateTransaction, issuedAt));
            ValidateRoute(s, key, header, JObject(map["transaction_token" := JString(t)]), now).0.Is(200)
  {
    Auth.IssuedTokenPassesGate(key, bearerClient, InitiateTransaction, issuedAt, now);
    assert StringMember(JObject(map["transaction_token" := JString(t)]), "transaction_token") == Some(t);
  }

  /** The validate route with the scope check the API documentation
      announces: only a bearer holding `execute_transaction` may redeem; any
      other accepted bearer is refused with 403. It redeems with the status
      update keyed by the token's UUID. */
  function ValidateRouteChecked(s: Store, key: string, header: Option<string>, body: Json, now: nat)
    : (r: (Response, Store))
    ensures !r.0.Is(200) ==> r.1 == s
    ensures r.0.Is(200) ==>
              exists c :: && header == Some(Auth.BearerPrefix + Jwt.Sign(key, c)) && Jwt.Acceptable(c, now)
                          && c.scope == ExecuteTransaction
    ensures r.0.Is(200) <==>
              && Auth.AuthMiddleware(header, key, now).Authenticated?
              && Auth.AuthMiddleware(header, key, now).scope == ExecuteTransaction
              && StringMember(body, "transaction_token").Some?
              && ValidateTransactionToken(s, StringMember(body, "transaction_token").value, now).Ok?
  {
    match Auth.AuthMiddleware(header, key, now)
    case Rejected(status, error) => (Response(status, ErrorBody(error)), s)
    case Authenticated(_, scope) =>
      if scope != ExecuteTransaction then (Response(ForbiddenStatus, ErrorBody(ScopeNotPermitted)), s)
      else
        match StringMember(body, "transaction_token")
        case None => (Response(400, ErrorBody(RequestShapeError)), s)
        case Some(t) =>
          match ValidateTransactionToken(s, t, now)
          case Err(e) => (Response(400, ErrorBody(e.Message())), s)
          case Ok((resp, s')) => (Response(200, ValidateBody(resp)), s')
  }

  /** With the check, the initiator's token that redeemed as written is
      refused and the transaction token stays unused. */
  lemma InitiatorBearerRefusedChecked(s: Store, key: string, bearerClient: string, issuedAt: nat, now: nat, t: string)
    requires now / 1000 < issuedAt / 1000 + Jwt.AccessTokenLifetime
    ensures var header := Some(Auth.BearerPrefix + Jwt.GenerateAccessToken(key, bearerClient, InitiateTransaction, issuedAt));
            ValidateRouteChecked(s, key, header, JObject(map["transaction_token" := JString(t)]), now)
            == (Response(ForbiddenStatus, ErrorBody(ScopeNotPermitted)), s)
  {
    Auth.IssuedTokenPassesGate(key, bearerClient, InitiateTransaction, issuedAt, now);
  }

  // ---------------------------------------------------------- admin clients

  /** `POST /api/admin/clients`: creates a client owned by the session's user
      with server-chosen credentials and the body's name, scope and (default
      true) activity; answers 201 with the row, or 400 with the failure's
      message and no change. */
  function CreateClientRoute(s: Store, userId: nat, body: Json, clientId: Uuid, clientSecret: Uuid, now: nat)
    : (r: (Response, Store))
    ensures r.0.Is(201) || r.0.Is(400)
    ensures r.0.Is(201) <==>
              ParseNewClient(body).Some? && !exists i :: 0 <= i < |s.clients| && s.clients[i].clientId == clientId
    ensures !r.0.Is(201) ==> r.1 == s
    ensures !r.0.Is(201) && ParseNewClient(body).Some? ==>
              r.0.body == ErrorBody(UniqueViolation(ClientIdUnique).Message())
    ensures r.0.Is(201) ==>
              && r.0.body.ClientBody? && r.0.body.client.Some?
              && var c := r.0.body.client.value;
                 && body.fields["name"] == JString(c.name)
                 && body.fields["scope"] == JString(c.scope)
                 && c.isActive == (if "isActive" in body.fields then body.fields["isActive"].b else true)
                 && c.userId == userId && c.clientId == clientId && c.clientSecret == clientSecret
                 && c.createdAt == now && c.lastActivity == None
                 && r.1.clients == s.clients + [c]
                 && r.1.transactionTokens == s.transactionTokens && r.1.transactions == s.transactions
  {
    match ParseNewClient(body)
    case None => (Response(400, ErrorBody(RequestShapeError)), s)
    case Some(input) =>
      match CreateClient(s, input, userId, clientId, clientSecret, now)
      case Err(e) => (Response(400, ErrorBody(e.Message())), s)
      case Ok((c, s')) => (Response(201, ClientBody(Some(c))), s')
  }

  /** `PATCH /api/admin/clients/:id` as written: the body may set only `name`,
      `scope` and `isActive`, and the row is found by id alone, whoever owns
      it. Answers 200 with the updated row (or none, when no row has the id)
      for a well-shaped, non-empty update and an id in the range of
      `integer`; otherwise 400 with the failure's message and no change. */
  function PatchClientRoute(s: Store, userId: nat, id: Option<int>, body: Json): (r: (Response, Store))
    ensures r.0.Is(200) || r.0.Is(400)
    ensures !r.0.Is(200) ==> r.1 == s
    ensures r.0.Is(200) <==>
              ParseClientUpdate(body).Some? && !ParseClientUpdate(body).value.IsEmpty() && id.Some? && IsInt4(id.value)
    ensures r.0.Is(400) && ParseClientUpdate(body).Some? ==>
              r.0.body == ErrorBody(UpdateClient(s, id, ParseClientUpdate(body).value).error.Message())
    ensures r.0.Is(200) ==>
              var u := ParseClientUpdate(body).value;
              && r.0.body.ClientBody?
              && (r.0.body.client.Some? <==> exists i :: 0 <= i < |s.clients| && s.clients[i].id == id.value)
              && |r.1.clients| == |s.clients|
              && (forall i :: 0 <= i < |s.clients| ==> KeepsIdentity(s.clients[i], r.1.clients[i]))
              && (forall i :: 0 <= i < |s.clients| && s.clients[i].id != id.value ==> r.1.clients[i] == s.clients[i])
              && (forall i :: 0 <= i < |s.clients| && s.clients[i].id == id.value ==>
                    && r.1.clients[i].name == u.name.GetOr(s.clients[i].name)
                    && r.1.clients[i].scope == u.scope.GetOr(s.clients[i].scope)
                    && r.1.clients[i].isActive == u.isActive.GetOr(s.clients[i].isActive))
              && r.1.transactionTokens == s.transactionTokens && r.1.transactions == s.transactions
  {
    match ParseClientUpdate(body)
    case None => (Response(400, ErrorBody(RequestShapeError)), s)
    case Some(u) =>
      match UpdateClient(s, id, u)
      case Err(e) => (Response(400, ErrorBody(e.Message())), s)
      case Ok((row, s')) => (Response(200, ClientBody(row)), s')
  }

  /** The gap in the route as written: a signed-in user can deactivate a
      client owned by someone else. */
  lemma ForeignClientPatchedAsWritten(s: Store, userId: nat, k: nat)
    requires 0 <= k < |s.clients| && s.clients[k].userId != userId && IsInt4(s.clients[k].id)
    ensures var r := PatchClientRoute(s, userId, Some(s.clients[k].id), JObject(map["isActive" := JBool(false)]));
            && r.0.Is(200)
            && r.1.clients[k] == s.clients[k].(isActive := false)
  {
    var body := JObject(map["isActive" := JBool(false)]);
    assert ParseClientUpdate(body) == Some(ClientUpdate(None, None, Some(false)));
  }

  /** The session's user owns the client row with this id. */
  predicate OwnedBy(s: Store, id: int, userId: nat) {
    exists i :: 0 <= i < |s.clients| && s.clients[i].id == id && s.clients[i].userId == userId
  }

  /** The update route with the owner check that the delete route already
      makes: the same answers as written, except that a row the user does not
      own is answered 404 and left alone. */
  function PatchClientRouteOwned(s: Store, userId: nat, id: Option<int>, body: Json): (r: (Response, Store))
    ensures r.0.Is(200) || r.0.Is(400) || r.0.Is(404)
    ensures !r.0.Is(200) ==> r.1 == s
    ensures r.0.Is(400) <==> !PatchClientRoute(s, userId, id, body).0.Is(200)
    ensures r.0.Is(400) ==> r.0 == PatchClientRoute(s, userId, id, body).0
    ensures r.0.Is(200) <==> PatchClientRoute(s, userId, id, body).0.Is(200) && OwnedBy(s, id.value, userId)
    ensures r.0.Is(404) ==> r.0 == Response(404, ErrorBody(ClientNotFound))
    ensures r.0.Is(200) ==> r == PatchClientRoute(s, userId, id, body)
    ensures Valid(s) ==> |r.1.clients| == |s.clients|
    ensures Valid(s) ==> forall i :: 0 <= i < |s.clients| && s.clients[i].userId != userId ==> r.1.clients[i] == s.clients[i]
  {
    match ParseClientUpdate(body)
    case None => (Response(400, ErrorBody(RequestShapeError)), s)
    case Some(u) =>
      match UpdateClient(s, id, u)
      case Err(e) => (Response(400, ErrorBody(e.Message())), s)
      case Ok((row, s')) =>
        if !OwnedBy(s, id.value, userId) then (Response(404, ErrorBody(ClientNotFound)), s)
        else (Response(200, ClientBody(row)), s')
  }

  /** With the owner check, the request that deactivated someone else's client
      is refused and changes nothing. */
  lemma ForeignClientPatchRefused(s: Store, userId: nat, k: nat)
    requires Valid(s) && 0 <= k < |s.clients| && s.clients[k].userId != userId && IsInt4(s.clients[k].id)
    ensures PatchClientRouteOwned(s, userId, Some(s.clients[k].id), JObject(map["isActive" := JBool(false)]))
         == (Response(404, ErrorBody(ClientNotFound)), s)
  {
    var body := JObject(map["isActive" := JBool(false)]);
    assert ParseClientUpdate(body) == Some(ClientUpdate(None, None, Some(false)));
    assert !OwnedBy(s, s.clients[k].id, userId) by {
      forall i | 0 <= i < |s.clients| && s.clients[i].id == s.clients[k].id
        ensures s.clients[i].userId != userId
      {
        assert i == k;
      }
    }
  }

  /** `DELETE /api/admin/clients/:id`: removes the client only when the
      session's user owns it, and answers 204 whether or not a row went; an
      id that is NaN or outside the range of `integer` is refused by the
      database and answered 400. */
  function DeleteClientRoute(s: Store, userId: nat, id: Option<int>): (r: (Response, Store))
    ensures r.0 == Response(204, NoContent) <==> id.Some? && IsInt4(id.value)
    ensures id.None? ==> r == (Response(400, ErrorBody("invalid input syntax for type integer: \"NaN\"")), s)
    ensures id.Some? && !IsInt4(id.value) ==>
              r == (Response(400, ErrorBody("value \"" + IntToDecimal(id.value) + "\" is out of range for type integer")), s)
    ensures r.0.Is(204) ==> forall c :: c in r.1.clients <==> c in s.clients && !(c.id == id.value && c.userId == userId)
    ensures forall i :: 0 <= i < |s.clients| && s.clients[i].userId != userId ==> s.clients[i] in r.1.clients
  {
    match DeleteClient(s, id, userId)
    case Err(e) =>
      assert e.InvalidInteger? ==> e.Message() == "invalid input syntax for type integer: \"NaN\"";
      assert e.OutOfRange? ==> e.Message() == "value \"" + IntToDecimal(id.value) + "\" is out of range for type integer";
      (Response(400, ErrorBody(e.Message())), s)
    case Ok(s') => (Response(204, NoContent), s')
  }

  /** `GET /api/admin/transactions`: `limit` is the parsed query parameter,
      10 when it is NaN or 0. A negative limit, or one beyond the range of
      `bigint`, makes the database fail and the route answer 500. */
  function RecentTransactionsRoute(s: Store, userId: nat, limit: Option<int>): (r: Response)
    ensures r.Is(200) || r == Response(500, ErrorBody("Failed to fetch transactions"))
    ensures r.Is(500) <==> limit.Some? && (limit.value < 0 || !IsInt8(limit.value))
    ensures r.Is(200) ==>
              var n := if limit.None? || limit.value == 0 then DefaultTransactionLimit else limit.value;
              && r.body.TransactionsBody?
              && |r.body.transactions| <= n
              && (forall t :: t in r.body.transactions ==> t in s.transactions && InitiatedByUser(s, userId, t))
              && Ordering.SortedDesc(r.body.transactions, (t: Transaction) => t.createdAt)
              && r.body.transactions == GetRecentTransactions(s, userId, n).value
              && var owned := Filter(s.transactions, (t: Transaction) => InitiatedByUser(s, userId, t));
                 && |r.body.transactions| == (if n < |owned| then n else |owned|)
                 && Ordering.NoneLeftAbove(owned, r.body.transactions, (t: Transaction) => t.createdAt)
  {
    var n := if limit.None? || limit.value == 0 then DefaultTransactionLimit else limit.value;
    match GetRecentTransactions(s, userId, n)
    case Err(_) => Response(500, ErrorBody("Failed to fetch transactions"))
    case Ok(ts) => Response(200, TransactionsBody(ts))
  }
}
