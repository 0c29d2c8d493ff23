/** The client, transaction-token and transaction operations of the token
    server's store (server/storage.ts), as pure functions over a value holding
    every table. `clients` and `transactions` are sequences of rows in
    insertion order, since they are searched and filtered on non-key columns;
    `access_tokens` and `transaction_tokens` are maps keyed by their unique
    `token` column. Every refusal of the database is an error result: a
    unique-constraint violation, and a parameter that is not valid input for
    its column's type (text that is no UUID, an integer out of range). Query
    parameters are sent as text and read by the column type's input routine,
    so a uuid column is matched by the value its parameter names. */
module Storage {
  import opened Wrappers
  import opened Uuids
  import opened Schema
  import Encoding
  import Ordering

  datatype Store = Store(
    clients: seq<Client>,
    nextClientRowId: nat,
    accessTokens: map<string, AccessTokenRecord>,
    transactionTokens: map<string, TransactionToken>,
    transactions: seq<Transaction>)

  /** The range of PostgreSQL's `integer` (the `serial` key `clients.id`). */
  predicate IsInt4(n: int) {
    -0x8000_0000 <= n <= 0x7fff_ffff
  }

  /** The range of PostgreSQL's `bigint` (the type of a `LIMIT`). */
  predicate IsInt8(n: int) {
    -0x8000_0000_0000_0000 <= n <= 0x7fff_ffff_ffff_ffff
  }

  /** An integer in the decimal text the driver sends for it. */
  function IntToDecimal(n: int): string {
    if n < 0 then "-" + Encoding.NatToDecimal(-n) else Encoding.NatToDecimal(n)
  }

  /** What the store refuses: a duplicate in a unique column, an update that
      sets no column (refused by the query builder before any query is sent),
      a parameter its column's type does not accept, a negative `LIMIT`. Each
      with the message the caller sees. */
  datatype DbError =
    | UniqueViolation(constraint: string)
    | NoValuesToSet
    | InvalidUuid(text: string)
    | InvalidInteger(text: string)
    | OutOfRange(value: int, typeName: string)
    | NegativeLimit
  {
    function Message(): string {
      match this
      case UniqueViolation(name) => "duplicate key value violates unique constraint \"" + name + "\""
      case NoValuesToSet => "No values to set"
      case InvalidUuid(text) => "invalid input syntax for type uuid: \"" + text + "\""
      case InvalidInteger(text) => "invalid input syntax for type integer: \"" + text + "\""
      case OutOfRange(value, typeName) => "value \"" + IntToDecimal(value) + "\" is out of range for type " + typeName
      case NegativeLimit => "LIMIT must not be negative"
    }
  }

  const ClientIdUnique: string := "clients_client_id_unique"
  const AccessTokenUnique: string := "access_tokens_token_unique"
  const TransactionTokenUnique: string := "transaction_tokens_token_unique"

  /** No two rows of `rows` agree on `key`. */
  ghost predicate KeysDistinct<T, K>(rows: seq<T>, key: T -> K) {
    forall i, j :: 0 <= i < j < |rows| ==> key(rows[i]) != key(rows[j])
  }

  /** The table constraints: `clients.id` is a serial primary key,
      `clients.client_id` is unique, and each token-keyed map holds every row
      under its own token. */
  ghost predicate Valid(s: Store) {
    && KeysDistinct(s.clients, (c: Client) => c.clientId)
    && KeysDistinct(s.clients, (c: Client) => c.id)
    && (forall i :: 0 <= i < |s.clients| ==> s.clients[i].id < s.nextClientRowId)
    && (forall t :: t in s.accessTokens ==> s.accessTokens[t].token == t)
    && (forall t :: t in s.transactionTokens ==> s.transactionTokens[t].token == t)
  }

  /** The first row satisfying `p`: `const [row] = await db.select()...where(p)`. */
  function Find<T>(rows: seq<T>, p: T -> bool): (r: Option<T>)
    ensures r.Some? <==> exists i :: 0 <= i < |rows| && p(rows[i])
    ensures r.Some? ==> r.value in rows && p(r.value)
  {
    if |rows| == 0 then None
    else if p(rows[0]) then Some(rows[0])
    else
      var r := Find(rows[1..], p);
      assert forall i :: 1 <= i < |rows| ==> rows[i] == rows[1..][i - 1];
      r
  }

  /** The rows satisfying `keep`, in their original order. */
  function Filter<T>(rows: seq<T>, keep: T -> bool): (r: seq<T>)
    ensures |r| <= |rows|
    ensures forall i :: 0 <= i < |r| ==> r[i] in rows && keep(r[i])
    ensures forall i :: 0 <= i < |rows| && keep(rows[i]) ==> rows[i] in r
    ensures multiset(r) <= multiset(rows)
    ensures (forall i :: 0 <= i < |rows| ==> keep(rows[i])) ==> r == rows
  {
    if |rows| == 0 then []
    else
      assert rows == [rows[0]] + rows[1..];
      (if keep(rows[0]) then [rows[0]] else []) + Filter(rows[1..], keep)
  }

  lemma {:induction false} FilterKeepsKeysDistinct<T, K>(rows: seq<T>, keep: T -> bool, key: T -> K)
    requires KeysDistinct(rows, key)
    ensures KeysDistinct(Filter(rows, keep), key)
    decreases |rows|
  {
    if |rows| > 0 {
      var tail := Filter(rows[1..], keep);
      assert KeysDistinct(rows[1..], key) by {
        forall i, j | 0 <= i < j < |rows[1..]|
          ensures key(rows[1..][i]) != key(rows[1..][j])
        {
          assert rows[1..][i] == rows[i + 1] && rows[1..][j] == rows[j + 1];
        }
      }
      FilterKeepsKeysDistinct(rows[1..], keep, key);
      if keep(rows[0]) {
        var r := [rows[0]] + tail;
        forall i, j | 0 <= i < j < |r|
          ensures key(r[i]) != key(r[j])
        {
          if i == 0 {
            assert r[j] in rows[1..];
            var m :| 0 <= m < |rows[1..]| && rows[1..][m] == r[j];
            assert rows[m + 1] == r[j];
          } else {
            assert r[i] == tail[i - 1] && r[j] == tail[j - 1];
          }
        }
      }
    }
  }

  // ---------------------------------------------------------------- clients

  /** `getClientById`: the client registered under the UUID `clientId` names,
      in any of its spellings; text that is no UUID is refused by the
      database. */
  function GetClientById(s: Store, clientId: string): (r: Result<Option<Client>, DbError>)
    ensures r.Err? <==> Parse(clientId).None?
    ensures r.Err? ==> r.error == InvalidUuid(clientId)
    ensures r.Ok? ==> (r.value.Some? <==> exists i :: 0 <= i < |s.clients| && Denotes(clientId, s.clients[i].clientId))
    ensures r.Ok? && r.value.Some? ==> r.value.value in s.clients && Denotes(clientId, r.value.value.clientId)
  {
    match Parse(clientId)
    case None => Err(InvalidUuid(clientId))
    case Some(u) => Ok(Find(s.clients, (c: Client) => c.clientId == u))
  }

  /** `getClientByCredentials`: a client whose id and secret both match, each
      compared as a UUID. The id parameter is read first, so when both are no
      UUID the error names the id. */
  function GetClientByCredentials(s: Store, clientId: string, clientSecret: string)
    : (r: Result<Option<Client>, DbError>)
    ensures r.Err? <==> Parse(clientId).None? || Parse(clientSecret).None?
    ensures r.Err? ==> r.error == InvalidUuid(if Parse(clientId).None? then clientId else clientSecret)
    ensures r.Ok? ==>
              (r.value.Some? <==>
                 exists i :: 0 <= i < |s.clients| && Denotes(clientId, s.clients[i].clientId)
                             && Denotes(clientSecret, s.clients[i].clientSecret))
    ensures r.Ok? && r.value.Some? ==>
              r.value.value in s.clients
              && Denotes(clientId, r.value.value.clientId) && Denotes(clientSecret, r.value.value.clientSecret)
  {
    match (Parse(clientId), Parse(clientSecret))
    case (None, _) => Err(InvalidUuid(clientId))
    case (_, None) => Err(InvalidUuid(clientSecret))
    case (Some(id), Some(secret)) => Ok(Find(s.clients, (c: Client) => c.clientId == id && c.clientSecret == secret))
  }

  /** With `client_id` unique, any spelling of a client's id finds that one
      row, and with it any spelling of its secret finds it by credentials,
      while any other UUID as the secret finds nothing. */
  lemma ClientLookupsAgree(s: Store, c: Client, clientId: string, clientSecret: string)
    requires Valid(s) && c in s.clients && Denotes(clientId, c.clientId)
    ensures GetClientById(s, clientId) == Ok(Some(c))
    ensures Denotes(clientSecret, c.clientSecret) ==> GetClientByCredentials(s, clientId, clientSecret) == Ok(Some(c))
    ensures Parse(clientSecret).Some? && !Denotes(clientSecret, c.clientSecret) ==>
              GetClientByCredentials(s, clientId, clientSecret) == Ok(None)
  {
    var k :| 0 <= k < |s.clients| && s.clients[k] == c;
    forall d | d in s.clients && d.clientId == c.clientId
      ensures d == c
    {
      var m :| 0 <= m < |s.clients| && s.clients[m] == d;
      assert m == k by {
        assert forall i, j :: 0 <= i < j < |s.clients| ==> s.clients[i].clientId != s.clients[j].clientId;
      }
    }
  }

  /** `createClient`: inserts a row with the server-chosen credentials
      `clientId` and `clientSecret` (fresh random values in the source), the
      owner `userId`, and the defaults: active unless the input says otherwise,
      no activity yet. A `clientId` already in use is refused. */
  function CreateClient(s: Store, input: NewClient, userId: nat, clientId: Uuid, clientSecret: Uuid, now: nat)
    : (r: Result<(Client, Store), DbError>)
    ensures r.Err? <==> exists i :: 0 <= i < |s.clients| && s.clients[i].clientId == clientId
    ensures r.Err? ==> r.error == UniqueViolation(ClientIdUnique)
    ensures r.Ok? ==>
      var (c, s') := r.value;
      && c.clientId == clientId && c.clientSecret == clientSecret && c.userId == userId
      && c.name == input.name && c.scope == input.scope
      && (c.isActive <==> input.isActive != Some(false))
      && c.createdAt == now && c.lastActivity == None
      && s'.clients == s.clients + [c]
      && s'.accessTokens == s.accessTokens
      && s'.transactionTokens == s.transactionTokens
      && s'.transactions == s.transactions
    ensures r.Ok? && Valid(s) ==> Valid(r.value.1)
  {
    if Find(s.clients, (c: Client) => c.clientId == clientId).Some? then
      Err(UniqueViolation(ClientIdUnique))
    else
      var c := Client(s.nextClientRowId, clientId, clientSecret, input.name, input.scope,
                      input.isActive.GetOr(true), userId, now, None);
      Ok((c, s.(clients := s.clients + [c], nextClientRowId := s.nextClientRowId + 1)))
  }

  /** The columns an update may never touch: `id`, `clientId`, `clientSecret`
      and `createdAt`, and the ones the route's update shape leaves out. */
  predicate KeepsIdentity(before: Client, after: Client) {
    && after.id == before.id
    && after.clientId == before.clientId
    && after.clientSecret == before.clientSecret
    && after.createdAt == before.createdAt
    && after.userId == before.userId
    && after.lastActivity == before.lastActivity
  }

  function ApplyUpdate(c: Client, u: ClientUpdate): Client {
    c.(name := u.name.GetOr(c.name), scope := u.scope.GetOr(c.scope), isActive := u.isActive.GetOr(c.isActive))
  }

  /** `updateClient`: sets the given columns on the row with primary key `id`
      and returns that row, or nothing when there is none. `id` is the route's
      `parseInt` result, `None` for NaN. An update with no column to set is
      refused before any query is sent; then the database refuses NaN and an
      id outside the range of `integer`. */
  function UpdateClient(s: Store, id: Option<int>, u: ClientUpdate): (r: Result<(Option<Client>, Store), DbError>)
    ensures r.Err? <==> u.IsEmpty() || id.None? || !IsInt4(id.value)
    ensures r.Err? ==> r.error == if u.IsEmpty() then NoValuesToSet
                                  else if id.None? then InvalidInteger("NaN")
                                  else OutOfRange(id.value, "integer")
    ensures r.Ok? ==>
      var (row, s') := r.value;
      && |s'.clients| == |s.clients|
      && (forall i :: 0 <= i < |s.clients| ==> KeepsIdentity(s.clients[i], s'.clients[i]))
      && (forall i :: 0 <= i < |s.clients| && s.clients[i].id != id.value ==> s'.clients[i] == s.clients[i])
      && (forall i :: 0 <= i < |s.clients| && s.clients[i].id == id.value ==>
            && s'.clients[i].name == u.name.GetOr(s.clients[i].name)
            && s'.clients[i].scope == u.scope.GetOr(s.clients[i].scope)
            && s'.clients[i].isActive == u.isActive.GetOr(s.clients[i].isActive))
      && (row.Some? <==> exists i :: 0 <= i < |s.clients| && s.clients[i].id == id.value)
      && (row.Some? ==> row.value in s'.clients && row.value.id == id.value)
      && s'.nextClientRowId == s.nextClientRowId
      && s'.accessTokens == s.accessTokens
      && s'.transactionTokens == s.transactionTokens
      && s'.transactions == s.transactions
  {
    if u.IsEmpty() then Err(NoValuesToSet)
    else if id.None? then Err(InvalidInteger("NaN"))
    else if !IsInt4(id.value) then Err(OutOfRange(id.value, "integer"))
    else
      var n := id.value;
      var rows := seq(|s.clients|, i requires 0 <= i < |s.clients| =>
                        if s.clients[i].id == n then ApplyUpdate(s.clients[i], u) else s.clients[i]);
      Ok((Find(rows, (c: Client) => c.id == n), s.(clients := rows)))
  }

  lemma UpdateClientKeepsValid(s: Store, id: Option<int>, u: ClientUpdate)
    requires Valid(s) && UpdateClient(s, id, u).Ok?
    ensures Valid(UpdateClient(s, id, u).value.1)
  {
    var s' := UpdateClient(s, id, u).value.1;
    forall i, j | 0 <= i < j < |s'.clients|
      ensures s'.clients[i].clientId != s'.clients[j].clientId && s'.clients[i].id != s'.clients[j].id
    {
      assert KeepsIdentity(s.clients[i], s'.clients[i]) && KeepsIdentity(s.clients[j], s'.clients[j]);
    }
  }

  /** `deleteClient`: removes the row only when both its id and its owner
      match. The database refuses a NaN id and one outside the range of
      `integer`. */
  function DeleteClient(s: Store, id: Option<int>, userId: nat): (r: Result<Store, DbError>)
    ensures r.Err? <==> id.None? || !IsInt4(id.value)
    ensures r.Err? ==> r.error == if id.None? then InvalidInteger("NaN") else OutOfRange(id.value, "integer")
    ensures r.Ok? ==>
      var s' := r.value;
      && (forall c :: c in s'.clients <==> c in s.clients && !(c.id == id.value && c.userId == userId))
      && ((forall i :: 0 <= i < |s.clients| ==> !(s.clients[i].id == id.value && s.clients[i].userId == userId)) ==> s' == s)
      && s'.nextClientRowId == s.nextClientRowId
      && s'.accessTokens == s.accessTokens
      && s'.transactionTokens == s.transactionTokens
      && s'.transactions == s.transactions
  {
    if id.None? then Err(InvalidInteger("NaN"))
    else if !IsInt4(id.value) then Err(OutOfRange(id.value, "integer"))
    else
      var n := id.value;
      Ok(s.(clients := Filter(s.clients, (c: Client) => !(c.id == n && c.userId == userId))))
  }

  lemma DeleteClientKeepsValid(s: Store, id: Option<int>, userId: nat)
    requires Valid(s) && DeleteClient(s, id, userId).Ok?
    ensures Valid(DeleteClient(s, id, userId).value)
  {
    var n := id.value;
    var keep := (c: Client) => !(c.id == n && c.userId == userId);
    FilterKeepsKeysDistinct(s.clients, keep, (c: Client) => c.clientId);
    FilterKeepsKeysDistinct(s.clients, keep, (c: Client) => c.id);
    var rows := Filter(s.clients, keep);
    assert DeleteClient(s, id, userId).value.clients == rows;
    forall i | 0 <= i < |rows|
      ensures rows[i].id < s.nextClientRowId
    {
      assert rows[i] in s.clients;
    }
  }

  /** `updateClientActivity`: stamps `lastActivity` on the client with that id
      and on nothing else. The service passes an id it has just found a row
      by, so the parameter is a UUID. */
  function UpdateClientActivity(s: Store, clientId: Uuid, now: nat): (s': Store)
    ensures |s'.clients| == |s.clients|
    ensures forall i :: 0 <= i < |s.clients| ==>
              s'.clients[i] == if s.clients[i].clientId == clientId
                               then s.clients[i].(lastActivity := Some(now)) else s.clients[i]
    ensures s'.nextClientRowId == s.nextClientRowId
    ensures s'.accessTokens == s.accessTokens
    ensures s'.transactionTokens == s.transactionTokens
    ensures s'.transactions == s.transactions
    ensures Valid(s) ==> Valid(s')
  {
    var rows := seq(|s.clients|, i requires 0 <= i < |s.clients| =>
                      if s.clients[i].clientId == clientId then s.clients[i].(lastActivity := Some(now)) else s.clients[i]);
    s.(clients := rows)
  }

  /** `getAllClients`: the user's clients, newest first. */
  function GetAllClients(s: Store, userId: nat): (r: seq<Client>)
    ensures forall c :: c in r <==> c in s.clients && c.userId == userId
    ensures Ordering.SortedDesc(r, (c: Client) => c.createdAt)
    ensures multiset(r) <= multiset(s.clients)
  {
    var owned := Filter(s.clients, (c: Client) => c.userId == userId);
    var r := Ordering.SortDesc(owned, (c: Client) => c.createdAt);
    assert forall c :: c in r <==> c in multiset(owned);
    r
  }

  // ------------------------------------------------------- access tokens

  /** `createAccessToken`: appends an audit row; a token already logged is refused. */
  function CreateAccessToken(s: Store, record: AccessTokenRecord): (r: Result<Store, DbError>)
    ensures r.Err? <==> record.token in s.accessTokens
    ensures r.Err? ==> r.error == UniqueViolation(AccessTokenUnique)
    ensures r.Ok? ==> r.value == s.(accessTokens := s.accessTokens[record.token := record])
    ensures r.Ok? && Valid(s) ==> Valid(r.value)
  {
    if record.token in s.accessTokens then Err(UniqueViolation(AccessTokenUnique))
    else Ok(s.(accessTokens := s.accessTokens[record.token := record]))
  }

  // -------------------------------------------------- transaction tokens

  /** `createTransactionToken`: inserts an unused token `token` (a fresh random
      value in the source) for `clientId`, with no `usedAt`. A token value
      already present is refused. */
  function CreateTransactionToken(s: Store, clientId: Uuid, expiresAt: nat, token: Uuid, now: nat)
    : (r: Result<(TransactionToken, Store), DbError>)
    ensures r.Err? <==> token in s.transactionTokens
    ensures r.Err? ==> r.error == UniqueViolation(TransactionTokenUnique)
    ensures r.Ok? ==>
      var (t, s') := r.value;
      && t.token == token && t.clientId == clientId && t.expiresAt == expiresAt && t.createdAt == now
      && !t.isUsed && t.usedAt == None
      && s' == s.(transactionTokens := s.transactionTokens[token := t])
    ensures r.Ok? && Valid(s) ==> Valid(r.value.1)
  {
    if token in s.transactionTokens then Err(UniqueViolation(TransactionTokenUnique))
    else
      var t := TransactionToken(token, clientId, false, expiresAt, now, None);
      Ok((t, s.(transactionTokens := s.transactionTokens[token := t])))
  }

  /** `getTransactionToken`: the row carrying the UUID `token` names, if any;
      text that is no UUID is refused by the database. */
  function GetTransactionToken(s: Store, token: string): (r: Result<Option<TransactionToken>, DbError>)
    ensures r.Err? <==> Parse(token).None?
    ensures r.Err? ==> r.error == InvalidUuid(token)
    ensures r.Ok? ==> (r.value.Some? <==> Parse(token).value in s.transactionTokens)
    ensures r.Ok? && r.value.Some? ==> r.value.value == s.transactionTokens[Parse(token).value]
    ensures r.Ok? && r.value.Some? && Valid(s) ==> Denotes(token, r.value.value.token)
  {
    match Parse(token)
    case None => Err(InvalidUuid(token))
    case Some(u) => Ok(if u in s.transactionTokens then Some(s.transactionTokens[u]) else None)
  }

  /** `markTransactionTokenAsUsed`: sets `isUsed` and `usedAt` on the row
      carrying `token`, whatever its current `isUsed`; other rows are untouched.
      The service calls it only with text the lookup has just parsed, so the
      parameter is the UUID it names. */
  function MarkTransactionTokenAsUsed(s: Store, token: Uuid, now: nat): (s': Store)
    ensures s'.transactionTokens.Keys == s.transactionTokens.Keys
    ensures token in s.transactionTokens ==>
              s'.transactionTokens[token] == s.transactionTokens[token].(isUsed := true, usedAt := Some(now))
    ensures forall t :: t in s.transactionTokens && t != token ==> s'.transactionTokens[t] == s.transactionTokens[t]
    ensures s'.clients == s.clients && s'.nextClientRowId == s.nextClientRowId
    ensures s'.accessTokens == s.accessTokens && s'.transactions == s.transactions
    ensures Valid(s) ==> Valid(s')
  {
    if token in s.transactionTokens then
      s.(transactionTokens := s.transactionTokens[token := s.transactionTokens[token].(isUsed := true, usedAt := Some(now))])
    else s
  }

  // -------------------------------------------------------- transactions

  /** `createTransaction`: appends a row with no executor and no completion
      time. The table has no unique column, so the insert cannot be refused. */
  function CreateTransaction(s: Store, token: string, initiator: Uuid, status: Status, now: nat)
    : (r: (Transaction, Store))
    ensures r.0.transactionToken == token && r.0.initiatorClientId == initiator && r.0.status == status
    ensures r.0.executorClientId == None && r.0.completedAt == None && r.0.createdAt == now
    ensures r.1 == s.(transactions := s.transactions + [r.0])
  {
    var t := Transaction(token, initiator, None, status, now, None);
    (t, s.(transactions := s.transactions + [t]))
  }

  /** `updateTransactionStatus`: sets `status` on every row carrying `token`,
      and changes no other column or row. `transaction_token` is a text
      column, so only the identical text matches. */
  function UpdateTransactionStatus(s: Store, token: string, status: Status): (s': Store)
    ensures |s'.transactions| == |s.transactions|
    ensures forall i :: 0 <= i < |s.transactions| ==>
              s'.transactions[i] == if s.transactions[i].transactionToken == token
                                    then s.transactions[i].(status := status) else s.transactions[i]
    ensures s'.clients == s.clients && s'.nextClientRowId == s.nextClientRowId
    ensures s'.accessTokens == s.accessTokens && s'.transactionTokens == s.transactionTokens
  {
    var rows := seq(|s.transactions|, i requires 0 <= i < |s.transactions| =>
                      if s.transactions[i].transactionToken == token then s.transactions[i].(status := status)
                      else s.transactions[i]);
    s.(transactions := rows)
  }

  /** The inner join of `getRecentTransactions`: the initiator is a client
      owned by `userId`. */
  predicate InitiatedByUser(s: Store, userId: nat, t: Transaction) {
    exists c :: c in s.clients && c.clientId == t.initiatorClientId && c.userId == userId
  }

  /** `getRecentTransactions`: at most `limit` of the user's transactions,
      newest first, and none of the user's transactions left out is newer than
      the last one returned. The database refuses a limit outside the range of
      `bigint`, and a negative one. */
  function GetRecentTransactions(s: Store, userId: nat, limit: int): (r: Result<seq<Transaction>, DbError>)
    ensures r.Err? <==> !IsInt8(limit) || limit < 0
    ensures r.Err? ==> r.error == if !IsInt8(limit) then OutOfRange(limit, "bigint") else NegativeLimit
    ensures r.Ok? ==>
              && |r.value| <= limit
              && (forall t :: t in r.value ==> t in s.transactions && InitiatedByUser(s, userId, t))
              && Ordering.SortedDesc(r.value, (t: Transaction) => t.createdAt)
    ensures r.Ok? ==>
              var owned := Filter(s.transactions, (t: Transaction) => InitiatedByUser(s, userId, t));
              && |r.value| == (if limit < |owned| then limit else |owned|)
              && Ordering.NoneLeftAbove(owned, r.value, (t: Transaction) => t.createdAt)
  {
    if !IsInt8(limit) then Err(OutOfRange(limit, "bigint"))
    else if limit < 0 then Err(NegativeLimit)
    else
      var owned := Filter(s.transactions, (t: Transaction) => InitiatedByUser(s, userId, t));
      var r := Ordering.TopDesc(owned, (t: Transaction) => t.createdAt, limit);
      assert forall t :: t in r ==> t in multiset(owned);
      Ok(r)
  }
}
