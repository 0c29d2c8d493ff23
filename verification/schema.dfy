/** The rows of the token server's tables (shared/schema.ts) and the input
    shape of client creation. Timestamps are milliseconds; nullable columns
    are `Option`s; a `uuid` column holds a `Uuid`, the value in its output
    form, while a `text` column holds whatever text was written to it.
    Surrogate keys are kept only where an operation reads them (the client
    row's `id`). */
module Schema {
  import opened Wrappers
  import opened Uuids

  /** The two scopes a client may be registered with. The `scope` column is
      free text, so other values can be stored; they never pass the checks that
      compare against these two. */
  const InitiateTransaction: string := "initiate_transaction"
  const ExecuteTransaction: string := "execute_transaction"

  /** A transaction's lifecycle state. Only `Initiated` and `Validated` are ever
      written; `Completed` and `Failed` are values the column allows. */
  datatype Status = Initiated | Validated | Completed | Failed

  /** A row of `clients`: `clientId` is unique, `isActive` defaults to true,
      `lastActivity` is null until the first token is issued. */
  datatype Client = Client(
    id: nat,
    clientId: Uuid,
    clientSecret: Uuid,
    name: string,
    scope: string,
    isActive: bool,
    userId: nat,
    createdAt: nat,
    lastActivity: Option<nat>)

  /** A row of `access_tokens`, the audit log of issued access tokens; `token`
      is unique. Nothing reads these rows back. */
  datatype AccessTokenRecord = AccessTokenRecord(
    token: string,
    clientId: Uuid,
    scope: string,
    expiresAt: nat,
    createdAt: nat)

  /** A row of `transaction_tokens`: `token` is unique, `isUsed` defaults to
      false and `usedAt` is null until the token is redeemed. */
  datatype TransactionToken = TransactionToken(
    token: Uuid,
    clientId: Uuid,
    isUsed: bool,
    expiresAt: nat,
    createdAt: nat,
    usedAt: Option<nat>)

  /** A row of `transactions`. `transactionToken` is a text column, not a
      uuid one, and not unique at this layer; `executorClientId` and
      `completedAt` are nullable. */
  datatype Transaction = Transaction(
    transactionToken: string,
    initiatorClientId: Uuid,
    executorClientId: Option<Uuid>,
    status: Status,
    createdAt: nat,
    completedAt: Option<nat>)

  /** `insertClientSchema`: what a client-creation request may set. The id,
      both credentials, the owner and the timestamps are not part of it, so the
      server always chooses them. */
  datatype NewClient = NewClient(name: string, scope: string, isActive: Option<bool>)

  /** The columns an update of a client may set; absent means left alone. */
  datatype ClientUpdate = ClientUpdate(name: Option<string>, scope: Option<string>, isActive: Option<bool>) {
    predicate IsEmpty() {
      name.None? && scope.None? && isActive.None?
    }
  }
}
