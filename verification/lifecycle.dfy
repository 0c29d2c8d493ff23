/** The token server as a whole: any interleaving of the service operations
    (issuing access tokens, initiating and validating transactions) and of
    the admin operations on clients, over one store. Each request runs to
    completion before the next starts. This is where the promises that span
    several requests are stated: a transaction token is redeemed at most
    once, a redeemed token stays redeemed, and a transaction is `validated`
    exactly when its token has been redeemed. */
module Lifecycle {
  import opened Wrappers
  import opened Uuids
  import opened Schema
  import opened Storage
  import OAuth

  /** One request against the store, with the values the server would draw
      at random (the new token, the new credentials) and the clock
      reading supplied. Access tokens are issued as written; validation is
      the one whose status update is keyed by the token's UUID, since the one
      as written does not keep transactions in step with their tokens (see
      `AsWrittenBreaksConsistency`). */
  datatype Op =
    | Issue(clientId: string, clientSecret: string, scope: string, now: nat)
    | Initiate(initiator: string, now: nat, newToken: Uuid)
    | Validate(token: string, now: nat)
    | Register(input: NewClient, userId: nat, newClientId: Uuid, newSecret: Uuid, now: nat)
    | Edit(id: Option<int>, update: ClientUpdate)
    | Remove(id: Option<int>, owner: nat)

  /** The store after one request, and the token it redeemed, if it was a
      successful validation. A failed request leaves the store as it was. */
  function Step(s: Store, key: string, op: Op): (r: (Store, Option<Uuid>))
    ensures r.1.Some? <==> op.Validate? && OAuth.ValidateTransactionToken(s, op.token, op.now).Ok?
    ensures r.1.Some? ==> Denotes(op.token, r.1.value)
    ensures op.Validate? && r.1.None? ==> r.0 == s
  {
    match op
    case Issue(clientId, secret, scope, now) =>
      (match OAuth.GenerateAccessTokenAsWritten(s, key, clientId, secret, scope, now)
       case Ok((_, s')) => s'
       case Err(_) => s, None)
    case Initiate(clientId, now, newToken) =>
      (match OAuth.GenerateTransactionToken(s, clientId, now, newToken)
       case Ok((_, s')) => s'
       case Err(_) => s, None)
    case Validate(token, now) =>
      (match OAuth.ValidateTransactionToken(s, token, now)
       case Ok((_, s')) => (s', Parse(token))
       case Err(_) => (s, None))
    case Register(input, userId, clientId, secret, now) =>
      (match CreateClient(s, input, userId, clientId, secret, now)
       case Ok((_, s')) => s'
       case Err(_) => s, None)
    case Edit(id, u) =>
      (match UpdateClient(s, id, u)
       case Ok((_, s')) => s'
       case Err(_) => s, None)
    case Remove(id, owner) =>
      (match DeleteClient(s, id, owner)
       case Ok(s') => s'
       case Err(_) => s, None)
  }

  /** Every transaction names a token that was issued, was never given an
      executor or a completion time, and is `validated` exactly when its
      token has been redeemed (otherwise `initiated`). */
  ghost predicate TransactionsConsistent(s: Store) {
    forall i :: 0 <= i < |s.transactions| ==>
      && s.transactions[i].transactionToken in s.transactionTokens
      && s.transactions[i].executorClientId == None
      && s.transactions[i].completedAt == None
      && (s.transactions[i].status == Validated <==> s.transactionTokens[s.transactions[i].transactionToken].isUsed)
      && (s.transactions[i].status == Initiated || s.transactions[i].status == Validated)
  }

  ghost predicate Invariant(s: Store) {
    Valid(s) && TransactionsConsistent(s)
  }

  /** The empty store: no clients, no tokens, no transactions. */
  const Empty: Store := Store([], 1, map[], map[], [])

  lemma EmptySatisfiesInvariant()
    ensures Invariant(Empty)
  {
    assert KeysDistinct(Empty.clients, (c: Client) => c.clientId);
    assert KeysDistinct(Empty.clients, (c: Client) => c.id);
  }

  /** A request never takes back a redemption: a redeemed token keeps its row,
      unchanged, through any request. */
  lemma StepKeepsRedeemed(s: Store, key: string, op: Op, t: Uuid)
    requires t in s.transactionTokens && s.transactionTokens[t].isUsed
    ensures t in Step(s, key, op).0.transactionTokens
    ensures Step(s, key, op).0.transactionTokens[t] == s.transactionTokens[t]
  {
    match op
    case Issue(clientId, secret, scope, now) =>
    case Initiate(clientId, now, newToken) =>
    case Validate(token, now) =>
      assert Parse(token) != Some(t) || OAuth.ValidateTransactionToken(s, token, now).Err?;
    case Register(input, userId, clientId, secret, now) =>
    case Edit(id, u) =>
    case Remove(id, owner) =>
  }

  lemma ValidateKeepsConsistent(s: Store, token: string, now: nat)
    requires TransactionsConsistent(s)
    requires OAuth.ValidateTransactionToken(s, token, now).Ok?
    ensures TransactionsConsistent(OAuth.ValidateTransactionToken(s, token, now).value.1)
  {
    var s' := OAuth.ValidateTransactionToken(s, token, now).value.1;
    forall i | 0 <= i < |s'.transactions|
      ensures s'.transactions[i].transactionToken in s'.transactionTokens
      ensures s'.transactions[i].status == Validated <==> s'.transactionTokens[s'.transactions[i].transactionToken].isUsed
    {
      var tk := s.transactions[i].transactionToken;
      assert s'.transactions[i].transactionToken == tk;
    }
  }

  lemma InitiateKeepsConsistent(s: Store, clientId: string, now: nat, newToken: Uuid)
    requires TransactionsConsistent(s)
    requires OAuth.GenerateTransactionToken(s, clientId, now, newToken).Ok?
    ensures TransactionsConsistent(OAuth.GenerateTransactionToken(s, clientId, now, newToken).value.1)
  {
    var s' := OAuth.GenerateTransactionToken(s, clientId, now, newToken).value.1;
    forall i | 0 <= i < |s'.transactions|
      ensures s'.transactions[i].transactionToken in s'.transactionTokens
      ensures s'.transactions[i].status == Validated <==> s'.transactionTokens[s'.transactions[i].transactionToken].isUsed
    {
      if i < |s.transactions| {
        assert s'.transactions[i] == s.transactions[i];
        assert s.transactions[i].transactionToken != newToken;
      }
    }
  }

  /** Every request keeps the store well formed and its transactions
      consistent with their tokens. */
  lemma StepKeepsInvariant(s: Store, key: string, op: Op)
    requires Invariant(s)
    ensures Invariant(Step(s, key, op).0)
  {
    match op
    case Issue(clientId, secret, scope, now) =>
    case Initiate(clientId, now, newToken) =>
      if OAuth.GenerateTransactionToken(s, clientId, now, newToken).Ok? {
        InitiateKeepsConsistent(s, clientId, now, newToken);
      }
    case Validate(token, now) =>
      if OAuth.ValidateTransactionToken(s, token, now).Ok? {
        ValidateKeepsConsistent(s, token, now);
      }
    case Register(input, userId, clientId, secret, now) =>
    case Edit(id, u) =>
      if UpdateClient(s, id, u).Ok? {
        UpdateClientKeepsValid(s, id, u);
      }
    case Remove(id, owner) =>
      if DeleteClient(s, id, owner).Ok? {
        DeleteClientKeepsValid(s, id, owner);
      }
  }

  /** Why `Step` does not validate as written: from a consistent store, a
      token initiated and then redeemed in braces leaves its transaction
      `initiated` while the token is used, so the transactions no longer
      agree with their tokens. */
  lemma AsWrittenBreaksConsistency(s: Store, clientId: string, t0: nat, token: Uuid, t1: nat)
    requires OAuth.GenerateTransactionToken(s, clientId, t0, token).Ok?
    requires t1 <= t0 + OAuth.TransactionTokenLifetimeMs
    ensures var s1 := OAuth.GenerateTransactionToken(s, clientId, t0, token).value.1;
            var r := OAuth.ValidateTransactionTokenAsWritten(s1, "{" + token + "}", t1);
            r.Ok? && !TransactionsConsistent(r.value.1)
  {
    OAuth.OtherSpellingLeavesInitiatedAsWritten(s, clientId, t0, token, t1);
    var s1 := OAuth.GenerateTransactionToken(s, clientId, t0, token).value.1;
    var s2 := OAuth.ValidateTransactionTokenAsWritten(s1, "{" + token + "}", t1).value.1;
    var i := |s.transactions|;
    assert s2.transactions[i].transactionToken == token;
    assert !(s2.transactions[i].status == Validated <==> s2.transactionTokens[s2.transactions[i].transactionToken].isUsed);
  }

  /** A sequence of requests, in order: the final store. */
  function Run(s: Store, key: string, ops: seq<Op>): Store
    decreases |ops|
  {
    if |ops| == 0 then s else Run(Step(s, key, ops[0]).0, key, ops[1..])
  }

  /** How many requests of the sequence redeemed `t`. */
  function Redemptions(s: Store, key: string, ops: seq<Op>, t: Uuid): nat
    decreases |ops|
  {
    if |ops| == 0 then 0
    else
      var (s1, redeemed) := Step(s, key, ops[0]);
      (if redeemed == Some(t) then 1 else 0) + Redemptions(s1, key, ops[1..], t)
  }

  /** Whatever the requests, the invariant holds after all of them; in
      particular no transaction is ever completed, failed or given an
      executor. */
  lemma {:induction false} RunKeepsInvariant(s: Store, key: string, ops: seq<Op>)
    requires Invariant(s)
    ensures Invariant(Run(s, key, ops))
    decreases |ops|
  {
    if |ops| > 0 {
      StepKeepsInvariant(s, key, ops[0]);
      RunKeepsInvariant(Step(s, key, ops[0]).0, key, ops[1..]);
    }
  }

  /** A redeemed token is never redeemed again, by any later request. */
  lemma {:induction false} RedeemedNeverAgain(s: Store, key: string, ops: seq<Op>, t: Uuid)
    requires t in s.transactionTokens && s.transactionTokens[t].isUsed
    ensures Redemptions(s, key, ops, t) == 0
    decreases |ops|
  {
    if |ops| > 0 {
      StepKeepsRedeemed(s, key, ops[0], t);
      var s1 := Step(s, key, ops[0]).0;
      assert Step(s, key, ops[0]).1 != Some(t);
      RedeemedNeverAgain(s1, key, ops[1..], t);
    }
  }

  /** Single use over a whole history: however the requests interleave, a
      transaction token is redeemed at most once. */
  lemma {:induction false} AtMostOneRedemption(s: Store, key: string, ops: seq<Op>, t: Uuid)
    ensures Redemptions(s, key, ops, t) <= 1
    decreases |ops|
  {
    if |ops| > 0 {
      var (s1, redeemed) := Step(s, key, ops[0]);
      if redeemed == Some(t) {
        assert t in s1.transactionTokens && s1.transactionTokens[t].isUsed;
        RedeemedNeverAgain(s1, key, ops[1..], t);
      } else {
        AtMostOneRedemption(s1, key, ops[1..], t);
      }
    }
  }

  /** The single-use law: after a transaction token is initiated, any number
      N >= 1 of validations of it, in any spellings of its UUID and made
      before it expires, redeem it exactly once; the other N - 1 fail as
      already used. */
  lemma ExactlyOneOfManyValidations(s: Store, key: string, clientId: string, t0: nat, token: Uuid,
                                    spellings: seq<string>, times: seq<nat>)
    requires OAuth.GenerateTransactionToken(s, clientId, t0, token).Ok?
    requires |times| >= 1 && |spellings| == |times|
    requires forall i :: 0 <= i < |times| ==> Denotes(spellings[i], token) && times[i] <= t0 + OAuth.TransactionTokenLifetimeMs
    ensures var s1 := OAuth.GenerateTransactionToken(s, clientId, t0, token).value.1;
            Redemptions(s1, key, seq(|times|, i requires 0 <= i < |times| => Validate(spellings[i], times[i])), token) == 1
  {
    var s1 := OAuth.GenerateTransactionToken(s, clientId, t0, token).value.1;
    var ops := seq(|times|, i requires 0 <= i < |times| => Validate(spellings[i], times[i]));
    OAuth.InitiateThenValidate(s, clientId, t0, token, spellings[0], times[0]);
    var (s2, redeemed) := Step(s1, key, ops[0]);
    assert redeemed == Some(token);
    RedeemedNeverAgain(s2, key, ops[1..], token);
  }
}
