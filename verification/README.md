# AuthVault token server: a Dafny model of its token lifecycle

AuthVault is an OAuth-style service. Registered API clients exchange their
client id and secret for a short-lived signed access token (the
`client_credentials` grant). With that token, an *initiator* client creates
a single-use *transaction token*. An *executor* client later redeems it
exactly once. Signed-in users manage their clients through admin routes,
and a fixed-window rate limiter sits in front of every `/api` route.

This project models that server side in Dafny, as pure functions over an
immutable store, and proves properties of the model. The modules:

- `Wrappers`: `Option` and `Result`.
- `Uuids`: the PostgreSQL `uuid` type as the store's uuid columns see the
  text bound to them. Input ignores letter case, accepts braces and optional
  hyphens, and refuses anything else with a syntax error. Output is the
  lower-case 8-4-4-4-12 form. Every uuid column of the model holds a value
  of type `Uuid`; what a request sends stays text until the store parses it.
- `Schema` (shared/schema.ts): the rows of `clients`, `access_tokens`,
  `transaction_tokens` and `transactions`, and the client creation shape.
- `Storage` (server/storage.ts): the database operations the core uses.
  - Tables keyed by client id or row id are sequences of rows. Tables keyed
    by a unique token are maps.
  - A unique-key violation is an error result, not a precondition, and so
    is text a uuid column refuses, an id outside the range of `integer` and
    a `LIMIT` that is negative or outside the range of `bigint`.
  - A lookup on a uuid column compares parsed values. The text column
    `transactions.transaction_token` compares raw strings.
- `Encoding` and `Jwt` (server/services/jwtService.ts): access-token
  claims, signing and verification.
  - Signing is abstract: a token is the netstring encoding of the claims
    followed by a keyed checksum of them.
  - Verification accepts exactly the tokens `Sign` produces whose claims are
    acceptable: issuer, audience, type and expiry.
  - Time is in milliseconds. `iat` is the whole second of issuance, and
    `exp = iat + 3600`.
  - A token is expired from the second `exp` on.
- `OAuth` (server/services/oauthService.ts): issuance of access tokens, and
  initiation and validation of transaction tokens.
- `Auth` (server/middleware/auth.ts): the bearer-token gate.
- `Routes` (server/routes.ts): the token, initiate, validate and admin
  client routes.
  - A handler either answers or sends nothing (`Unanswered`). It sends
    nothing when its error handler's own log insert fails.
  - Request bodies are JSON values.
  - A path or query parameter is the result of `parseInt`, with `None` for
    NaN.
- `RateLimit` (server/middleware/rateLimiter.ts): the limiter's table, one
  request, and the sweep timer's pass.
- `Lifecycle`: any sequence of service and admin requests over one store.
  This is where the single-use law and the store invariant are proved.
- `Ordering`: the descending sorts and the `ORDER BY … DESC LIMIT n` the
  store's listing queries use.

Inputs the server draws at random are parameters of the operations that use
them:
- the transaction token UUID;
- a new client's id and secret.

The signing key is a parameter too. The server reads it from the
`JWT_SECRET` environment variable, falling back to a fixed default string
(server/services/jwtService.ts:3); the model holds for any key.

The clock reading is a parameter as well: one reading, `now`, per request
(see "Left out").

## Model

| member | source | states |
|---|---|---|
| Uuids.Format | shared/schema.ts:18-19 | 32 lower-case digits are written in the output form, each digit at its place among the four hyphens |
| Uuids.Digits | shared/schema.ts:18-19 | every value in output form is the output form of its 32 digits |
| Uuids.ReadBytes | shared/schema.ts:18-19 | reading the bytes from `n` on yields two lower-case digits per byte and consumes at least that many characters |
| Uuids.Parse | shared/schema.ts:18-19 | a text shorter than 32 characters never names a UUID |
| Uuids.FormatReads | shared/schema.ts:18-19 | the input routine reads the bytes of an output form back as its digits, leaving whatever follows |
| Uuids.ParseCanonical | shared/schema.ts:18-19 | a stored value, bare or in braces, names itself |
| Uuids.ParseIdempotent | shared/schema.ts:18-19 | the value a text names, written out, names the same value again |
| Uuids.ReadBytesIgnoresCase | shared/schema.ts:18-19 | two texts that differ only in the case of their letters are read alike, byte for byte |
| Uuids.ParseIgnoresCase | shared/schema.ts:18-19 | letter case never changes which value a text names or whether it names one |
| Uuids.UpperCase | shared/schema.ts:18-19 | the upper-case spelling differs from the text only in letter case |
| Uuids.OtherSpellings | shared/schema.ts:39 | a value is also named by its braced and its upper-case spellings, and the braced one is a different text |
| Jwt.Check | server/services/jwtService.ts:27-37 | a token that passes is exactly the signature of the claims it carries, and those claims have the right issuer, audience and type and have not expired |
| Jwt.VerifyAccessToken | server/services/jwtService.ts:27-42 | soundness: whatever is accepted is a signed, acceptable claim set; every failure is the one "Invalid or expired token" error |
| Jwt.VerifySigned | server/services/jwtService.ts:13-42 | completeness: verifying a signed claim set returns exactly those claims when they are acceptable and the single error otherwise |
| Jwt.ClaimsRoundTrip | server/services/jwtService.ts:14-24 | decoding the encoded claims gives back the same claims |
| Jwt.SignInjective | server/services/jwtService.ts:20-24 | two claim sets signed to the same token are the same claim set |
| Jwt.IssuedClaims | server/services/jwtService.ts:13-24 | the claims name the client and scope given, are stamped with the whole second of issuance, and are acceptable exactly while the current second is before that second plus the advertised lifetime |
| Jwt.GenerateAccessToken | server/services/jwtService.ts:13-25 | the issued token verifies, at the instant of issuance, to exactly the issued claims |
| Jwt.GeneratedTokenRoundTrip | server/services/jwtService.ts:13-25 | an issued token verifies, to the client and scope it was issued for, exactly while the current second is before the issue second plus the advertised lifetime |
| Jwt.WrongClaimsRejected | server/services/jwtService.ts:29-36 | a correctly signed token with the wrong issuer, audience or type is refused with the single error |
| Jwt.GetTokenExpiry | server/services/jwtService.ts:44-46 | the advertised `expires_in` equals the lifetime the signer uses |
| Auth.AuthMiddleware | server/middleware/auth.ts:9-31 | the missing-header refusal happens exactly when there is no header or it lacks the case-sensitive "Bearer " prefix; the invalid-token refusal happens exactly when the rest fails verification; acceptance carries the client and scope of a signed, acceptable token |
| Auth.IssuedTokenPassesGate | server/middleware/auth.ts:15-27 | a header carrying an issued token is accepted with that token's client and scope until expiry, and refused with 401 afterwards |
| Auth.LowerCaseSchemeRefused | server/middleware/auth.ts:17-19 | a lower-case "bearer " scheme is refused before verification |
| OAuth.CheckClient | server/services/oauthService.ts:12-24 | an id or secret that is no UUID is refused by the database; the credentials error happens exactly when no row's id and secret are named by the texts given, in any spelling; success is that row |
| OAuth.AuditRecord | server/services/oauthService.ts:30-36 | the audit row records the token, the client and scope, and an expiry in the same second as the token's own `exp` claim |
| OAuth.GenerateAccessTokenAsWritten | server/services/oauthService.ts:6-46 | fails with `CheckClient`'s error, or on the unique `access_tokens.token` column exactly when the signed token is already logged; otherwise returns a Bearer token of 3600 seconds that verifies to the client text and scope requested, logs it under the client's UUID, stamps the client's last activity and changes nothing else |
| OAuth.IssuedAsWrittenIsLogged | server/services/oauthService.ts:27-36 | after an issuance the token just returned is in the audit table |
| OAuth.SameSecondReissueFailsAsWritten | server/services/oauthService.ts:27-36 | as written, a second issuance for the same client and scope in the same second fails |
| OAuth.GenerateAccessToken | server/services/oauthService.ts:6-46 | with the audit insert best-effort: fails exactly when the credential, active and scope checks fail, with their error; otherwise the same response, audit row and activity stamp as written |
| OAuth.SameSecondReissueSucceeds | server/services/oauthService.ts:27-36 | with the audit insert best-effort, the same-second re-issuance succeeds and returns the same token |
| OAuth.IssuanceSucceedsIff | server/services/oauthService.ts:12-36 | issuance succeeds iff the texts name the id and secret of a client row that is active and has the requested scope, and, as written, the token to be issued is not already logged |
| OAuth.InactiveOrWrongScopeRefused | server/services/oauthService.ts:12-24 | for a request naming an existing client that is inactive or holds another scope, the refusal is, in order: a secret that is no UUID, a wrong secret as invalid credentials, then inactive, then wrong scope |
| OAuth.GenerateTransactionToken | server/services/oauthService.ts:48-80 | the error precedence is: an id that is no UUID (database error), no client with that UUID, inactive, not an initiator; success creates exactly one unused token expiring ten minutes later and one `initiated` transaction naming the client's UUID |
| OAuth.CheckTransactionToken | server/services/oauthService.ts:82-95 | a token that is no UUID is the database's syntax error; then unknown, already used, expired (strictly after `expiresAt`), each exactly when it applies |
| OAuth.ValidateTransactionTokenAsWritten | server/services/oauthService.ts:82-108 | fails exactly as `CheckTransactionToken` does and changes nothing; success marks the token used at `now`, sets `validated` on the transactions whose text column equals the presented text, and returns that text and the issuing client |
| OAuth.ValidateTransactionToken | server/services/oauthService.ts:82-108 | the same, with the status update keyed by the token's UUID: every transaction of that token becomes `validated` |
| OAuth.ValidationsAgreeOnOutputForm | server/services/oauthService.ts:97-101 | a token presented in its output form is validated alike by both |
| OAuth.ValidateIsSingleUse | server/services/oauthService.ts:89-98 | after one successful validation, every later validation in any spelling fails as already used |
| OAuth.InitiateThenValidate | server/services/oauthService.ts:64-108 | a just-initiated token validates, in any spelling, exactly until its expiry instant, naming its initiator |
| OAuth.OtherSpellingLeavesInitiatedAsWritten | server/storage.ts:150-155 | as written, a live token redeemed in braces is used while its transaction stays `initiated` |
| OAuth.OtherSpellingValidates | server/services/oauthService.ts:97-101 | with the update keyed by UUID, the same request marks that transaction `validated` |
| Storage.GetClientById | server/storage.ts:74-77 | text that is no UUID is the database's syntax error; otherwise finds a row whose `client_id` the text names iff one exists |
| Storage.GetClientByCredentials | server/storage.ts:79-84 | the id's syntax error first, then the secret's; otherwise finds a row whose id and secret the texts name iff one exists |
| Storage.ClientLookupsAgree | server/storage.ts:74-84 | with `client_id` unique, any spelling of a stored id finds that one row by either lookup, and a parseable wrong secret finds none |
| Storage.CreateClient | server/storage.ts:86-92 | refuses an id already in use; otherwise appends a row with the given owner and credentials, active unless told otherwise, and keeps the store well formed |
| Storage.UpdateClient | server/storage.ts:94-101 | refuses an empty update, then a NaN id, then an id outside `integer`; otherwise only the row with that primary key changes, and only in name, scope and active flag; the row is returned iff it exists |
| Storage.UpdateClientKeepsValid | server/storage.ts:94-101 | an update keeps ids and `client_id`s unique |
| Storage.DeleteClient | server/storage.ts:103-105 | refuses a NaN id and an id outside `integer`; otherwise removes exactly the rows matching both id and owner |
| Storage.DeleteClientKeepsValid | server/storage.ts:103-105 | deletion keeps the store well formed |
| Storage.UpdateClientActivity | server/storage.ts:107-112 | stamps `lastActivity` on the rows with that `client_id` and on nothing else |
| Storage.GetAllClients | server/storage.ts:70-72 | lists exactly the user's clients, newest first |
| Storage.CreateAccessToken | server/storage.ts:114-120 | refuses a token already logged; otherwise adds exactly that row |
| Storage.CreateTransactionToken | server/storage.ts:122-128 | refuses a token value already present; otherwise adds an unused row with no `usedAt` |
| Storage.GetTransactionToken | server/storage.ts:130-133 | text that is no UUID is the database's syntax error; otherwise finds the row of the UUID it names iff present |
| Storage.MarkTransactionTokenAsUsed | server/storage.ts:135-140 | sets `isUsed` and `usedAt` on that token's row only |
| Storage.CreateTransaction | server/storage.ts:142-148 | appends one row with no executor and no completion time |
| Storage.UpdateTransactionStatus | server/storage.ts:150-155 | sets the status of exactly the rows whose text column equals the given text |
| Storage.GetRecentTransactions | server/storage.ts:157-176 | a limit outside `bigint` or negative is refused; otherwise returns at most `limit` transactions, all initiated by the user's clients, newest first, and no omitted transaction is newer than one returned |
| Ordering.SortDesc | server/storage.ts:71 | the result is sorted by descending key and is a permutation of the input |
| Ordering.TopDesc | server/storage.ts:172-173 | the first `limit` rows of the descending order: sorted, drawn from the input, and no omitted row ranks above a kept one |
| Routes.StringMember | server/routes.ts:207-212 | a member is read iff the body is an object holding a string under that name, and the value read is that string |
| Routes.ParseTokenRequest | server/routes.ts:207-212 | accepts exactly a body with `grant_type` "client_credentials", string id and secret, and one of the two scopes, and carries those members' values |
| Routes.ParseClientUpdate | server/routes.ts:338-342 | accepts exactly an object whose present `name` is a string, `scope` one of the two scopes and `isActive` a boolean; the update sets exactly the members present, to their values |
| Routes.ParseNewClient | shared/schema.ts:131-138 | accepts exactly a string name and scope and an optional boolean `isActive`, and carries their values |
| Routes.Caught | server/routes.ts:231-241 | the error handler answers its status and message iff the body's `client_id` can be logged, and otherwise sends nothing |
| Routes.OAuthTokenRoute | server/routes.ts:205-243 | answers 200 with the service's response iff the body parses and issuance as written succeeds; every other request changes nothing and is answered 401 "Invalid client credentials" iff its `client_id` can be logged, else not at all |
| Routes.TokenRouteServesActiveClient | server/routes.ts:205-230 | an active client presenting its id and secret in any spelling, and its scope, gets a token that verifies to the id as presented, unless that token is already logged |
| Routes.NonUuidClientIdUnanswered | server/routes.ts:231-241 | a token request whose `client_id` is a string but no UUID is never answered and changes nothing |
| Routes.InitiateRoute | server/routes.ts:246-277 | 401 iff the gate refuses; 200 iff the gate accepts and the service initiates for the body's `client_id`, with the store the service leaves (the new token and its `initiated` transaction); a service failure answers 400 with its message, or nothing when `client_id` cannot be logged |
| Routes.InitiateIgnoresBearerIdentity | server/routes.ts:246-252 | as written, which accepted bearer calls makes no difference to the outcome |
| Routes.ForeignBearerInitiatesAsWritten | server/routes.ts:246-252 | as written, any live token, of any client and scope, initiates for any active initiator |
| Routes.InitiateRouteChecked | client/src/pages/api-docs.tsx:404-405 | with the announced scope check, success requires a bearer whose client id names the same UUID as the body's and which holds `initiate_transaction` |
| Routes.ForeignBearerRefusedChecked | client/src/pages/api-docs.tsx:693-697 | with the scope check, a token of another client, or a `client_id` that is no UUID, is refused with 403 and changes nothing |
| Routes.ValidateRoute | server/routes.ts:280-311 | 401 iff the gate refuses; 200 iff the token is redeemed as written, answering `valid: true`, the token as presented and the issuing client; otherwise 400 with the service's message (for a token that is no UUID, the database's syntax error) and no change |
| Routes.SecondValidateAnswersAlreadyUsed | server/routes.ts:280-311 | a successful redemption repeated answers 400 with the already-used message |
| Routes.InitiatorBearerValidatesAsWritten | server/routes.ts:280-286 | as written, an initiator's live token redeems a transaction token |
| Routes.ValidateRouteChecked | client/src/pages/api-docs.tsx:744-748 | with the announced scope check, success requires a bearer holding `execute_transaction` |
| Routes.InitiatorBearerRefusedChecked | client/src/pages/api-docs.tsx:693-697 | with the scope check, an initiator's token is refused with 403 and changes nothing |
| Routes.CreateClientRoute | server/routes.ts:324-333 | 201 iff the body is well shaped and the drawn id is unused, with a row carrying the body's name and scope, its `isActive` or true, the session's user and the drawn credentials; otherwise 400 and no change |
| Routes.PatchClientRoute | server/routes.ts:335-349 | 200 iff the body is well shaped and non-empty and the id is an `integer`; then the row with that id gets the body's values and no other row changes; otherwise 400 with the failure's message and no change |
| Routes.ForeignClientPatchedAsWritten | server/routes.ts:335-349 | as written, a user deactivates a client owned by someone else |
| Routes.PatchClientRouteOwned | server/routes.ts:335-349 | with the owner check, the same 400s as written; 200 iff it would succeed as written and the user owns the row, with the same result; 404 otherwise; no other user's row ever changes |
| Routes.ForeignClientPatchRefused | server/routes.ts:335-349 | with the owner check, the foreign deactivation is answered 404 and changes nothing |
| Routes.DeleteClientRoute | server/routes.ts:351-360 | 204 iff the id is an `integer`, whether or not a row matched, removing exactly the row with that id owned by the user; NaN and out-of-range ids answer 400 with the database's message; other users' clients survive |
| Routes.RecentTransactionsRoute | server/routes.ts:375-385 | a missing, NaN or zero limit means 10; 500 iff the limit is negative or outside `bigint`; otherwise exactly the `min(limit, owned)` newest of the user's transactions, newest first, with none of theirs left out newer than one returned |
| RateLimit.KeyOf | server/middleware/rateLimiter.ts:31 | the caller's address is the key, or "unknown" when it is missing or empty |
| RateLimit.CeilSeconds | server/middleware/rateLimiter.ts:55 | the least number of whole seconds covering the remaining milliseconds |
| RateLimit.Hit | server/middleware/rateLimiter.ts:30-60 | a request opens a new window (count 1, ending one window length later) when none is live at `now`, else increments the count; it touches no other key; it is refused with 429 exactly when the count exceeds the maximum; the remaining count is as sent, and the retry-after is the whole seconds, rounded up, to the window's end |
| RateLimit.Sweep | server/middleware/rateLimiter.ts:20-27 | drops exactly the entries whose window ended strictly before the sweep |
| RateLimit.SweepIsInvisible | server/middleware/rateLimiter.ts:20-41 | a sweep at any time up to a request changes neither the request's outcome nor, up to that sweep, the resulting table |
| RateLimit.KeysAreIndependent | server/middleware/rateLimiter.ts:31-41 | a request under one key does not change the outcome of a request under another |
| RateLimit.WithinLiveWindow | server/middleware/rateLimiter.ts:34-52 | inside a live window holding `count` requests, the i-th further request passes iff `count + i + 1` is at most the maximum |
| RateLimit.WindowAdmitsExactlyMax | server/middleware/rateLimiter.ts:15-57 | of the requests within one window length of a window-opening request, exactly the first `maxRequests` pass |
| RateLimit.DefaultAdmitsHundredPerMinute | server/middleware/rateLimiter.ts:15-63 | as configured, the first hundred requests from one address in a minute pass and the rest are refused |
| Lifecycle.Step | server/services/oauthService.ts:82-108 | a request redeems a token iff it is a successful validation, and the token redeemed is the UUID it names |
| Lifecycle.StepKeepsRedeemed | server/services/oauthService.ts:89-91 | no request changes a redeemed token's row |
| Lifecycle.ValidateKeepsConsistent | server/services/oauthService.ts:97-101 | after a validation keyed by UUID, each transaction is still `validated` exactly when its token is used |
| Lifecycle.InitiateKeepsConsistent | server/services/oauthService.ts:64-75 | after an initiation, each transaction still names an issued token and is `validated` exactly when its token is used |
| Lifecycle.StepKeepsInvariant | server/services/oauthService.ts:6-108 | every request keeps the store well formed and its transactions consistent with their tokens |
| Lifecycle.AsWrittenBreaksConsistency | server/storage.ts:150-155 | as written, a braced redemption leaves a used token whose transaction is `initiated`, so consistency is lost |
| Lifecycle.EmptySatisfiesInvariant | shared/schema.ts:16-56 | the empty database satisfies the invariant |
| Lifecycle.RunKeepsInvariant | server/services/oauthService.ts:64-101 | after any sequence of requests, no transaction is completed, failed or given an executor, and each is `validated` iff its token is used |
| Lifecycle.RedeemedNeverAgain | server/services/oauthService.ts:89-91 | once a token is redeemed, no later request redeems it |
| Lifecycle.AtMostOneRedemption | server/services/oauthService.ts:82-108 | in any sequence of requests, a token is redeemed at most once |
| Lifecycle.ExactlyOneOfManyValidations | server/services/oauthService.ts:48-108 | after initiation, N >= 1 validations before expiry, in any spellings, redeem the token exactly once |

## Left out

- Signing: HMAC-SHA256 and the `jsonwebtoken` library are not modelled. `Sign` is an encoding followed by a keyed checksum.
  - The model proves what verification decides: soundness and completeness against `Sign`. It says nothing about unforgeability.
  - The base64url header and payload encoding is replaced by netstrings.
- Jwt.VerifyAccessToken: the library's `nbf`, clock tolerance and algorithm checks are not modelled. They are not configured in the source.
- Randomness: UUIDs are parameters, so their uniqueness is not modelled. A repeated value takes the unique-violation path.
- Concurrency: requests run one at a time, each to completion.
  - The source's validation reads the token and then writes it in two separate queries.
  - Two concurrent validations of one token can therefore both pass the `isUsed` check.
  - `Lifecycle.AtMostOneRedemption` holds only for serialised requests.
- Logging: the `api_logs` rows are not modelled. The only effect of logging on a response is kept: the failure path of the token and initiate routes logs the body's `client_id` into a uuid column, and when the database refuses that value the handler sends no response (`Routes.Caught`).
  - A success-path log always goes through, because the id it logs has already been accepted by a uuid column. The validate route's failure log carries no client id.
  - What follows an unanswered request (the client waiting until it times out, or the process ending on the unhandled rejection, depending on the Node.js version) is not modelled.
- Not modelled: the users, sessions and `requireAuth`; the dashboard statistics route; the login and register routes; and the client-side pages.
  - The admin routes take the signed-in user's id as a parameter.
- Response headers: the limiter's headers are values in its outcome. The reset instant is a millisecond count, not an ISO date string.
- The limiter's timer: the one-minute `setInterval` is not modelled. A sweep is an operation that can happen at any instant.
- The `transactionData` column is left out, along with `api_logs` and the other tables. No core operation writes them.
- The transaction status is a closed datatype, while the column is free text. Only `initiated` and `validated` are ever written.
- Routes.ParseNewClient: `scope` is any string, as the generated insert schema allows. The message text of a request-shape error is a stand-in for the validation library's report.
- UpdateClient and DeleteClient: a path id is a JavaScript number, exact only up to 2^53 and written in exponent form from 10^21 on. The model takes the exact integer, so for such ids it reports "out of range" where the database may report a syntax error; both answer 400.
- GetRecentTransactions: a negative limit is taken to reach the database as written, which refuses it and the route answers 500. A query builder that drops a negative limit would instead list every transaction.
- Uuids: the input routine is modelled on characters. A text with characters outside ASCII is refused just as the database refuses it, but the database's error for a NUL character is a different message.
- Lifecycle.Step validates with the status update keyed by UUID (`OAuth.ValidateTransactionToken`), not as written; `Lifecycle.AsWrittenBreaksConsistency` shows why the invariant cannot hold for the code as written.
- Storage lookups return the first matching row. The unique `client_id` constraint makes that the only one (`Storage.ClientLookupsAgree`).
- JSON numbers are integers, which is all the modelled bodies use.
- Clock: one reading, `now`, stands for every clock reading a request makes.
  The source reads the clock separately in several places:
  - `jwt.sign` for the token's `iat`;
  - `Date.now()` for the expiry instants (server/services/oauthService.ts:35, 67);
  - `new Date()` for the expiry check and the `lastActivity` and `usedAt` stamps (oauthService.ts:93, server/storage.ts:110, 138);
  - the database's own clock for every `created_at` default (shared/schema.ts:34, 43, 54).
  A second boundary, or a skew between the two hosts, falling between those reads is not modelled.
- OAuth.AuditRecord: the audit row's `expiresAt` lies in the same second as the token's `exp` claim only under that single reading. In the source, a second boundary between `jwt.sign` and oauthService.ts:35 puts `expiresAt` one second after `exp`.
  - For the same reason, `createdAt` in GenerateTransactionToken's rows is `now`, the same instant its ten-minute expiry counts from.

## Where the code departs from its documentation

The API documentation page (client/src/pages/api-docs.tsx) promises two
things the code does not fully deliver. The model follows the code, and
models the documented behaviour next to it:

- **Initiate and validate scopes.** The page announces that "only clients
  with proper scopes can initiate or validate transactions"
  (api-docs.tsx:404-405). It lists a 403 answer for insufficient scope
  (api-docs.tsx:693-697, 746-747).
  - The routes check neither the bearer's client nor its scope.
  - The checked variants are modelled next to the as-written routes; see
    the findings below.
- **Single-use tokens.** The page says a transaction token "can only be
  validated once" (api-docs.tsx:397-398).
  - The code reads the token and marks it used in two separate queries, so
    two concurrent validations can both succeed.
  - The model runs requests one at a time, and proves single use for that
    case only (`Lifecycle.AtMostOneRedemption`; see "Left out").

## Findings

| source | as written | input that shows it | evidently intended | confidence | as-written member | corrected member |
|---|---|---|---|---|---|---|
| server/services/oauthService.ts:27-36 | the audit insert must succeed, and the JWT depends only on client, scope and the issue second | the same active client requests a token twice within one second: both sign the identical token, and the second insert violates the unique `access_tokens.token` column, so the route answers 401 | the log is advisory, so re-issuing the same valid token succeeds | medium, not executed | OAuth.SameSecondReissueFailsAsWritten | OAuth.GenerateAccessToken |
| server/routes.ts:246-252 | the bearer token only has to be valid; the body's `client_id` is used as is | client B's live token (any scope) with `client_id` of active initiator A initiates a transaction in A's name | the bearer must be A and hold `initiate_transaction`, else 403 | medium, not executed | Routes.ForeignBearerInitiatesAsWritten | Routes.InitiateRouteChecked |
| server/routes.ts:280-286 | the bearer token only has to be valid | an initiator's live token redeems a transaction token | only an `execute_transaction` bearer redeems, else 403 | medium, not executed | Routes.InitiatorBearerValidatesAsWritten | Routes.ValidateRouteChecked |
| server/routes.ts:335-349 | the update is filtered by row id only, while delete also filters by owner | a signed-in user sends `{"isActive": false}` for another user's client id: 200, and that client is deactivated | rows owned by others are answered 404 and left alone | high, not executed | Routes.ForeignClientPatchedAsWritten | Routes.PatchClientRouteOwned |
| server/storage.ts:150-155 | the token is marked used through the uuid column, but the transaction's status is updated by comparing the text column with the token as presented | a live token sent to validate in braces, or in upper case: 200, the token is used, and its transaction stays `initiated` | the status update finds the transaction of the same UUID, so it becomes `validated` | high, not executed | OAuth.OtherSpellingLeavesInitiatedAsWritten | OAuth.OtherSpellingValidates |
