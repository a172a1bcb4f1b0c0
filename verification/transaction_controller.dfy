/** The read-only transaction handlers
    (backend/src/controllers/transactionController.ts). */
module TransactionController {
  import opened Types
  import opened Database
  import opened Http

  /** `getAllTransactions`: every transaction-tagged item, with no shape
      check: `filterTransactions` is not applied. */
  function GetAllTransactions(store: Store, env: Env): (r: Outcome)
    ensures r.store == store
    ensures r.reply.Ok? <==> env.failAt != Some(0)
    ensures r.reply.Fail? ==> r.reply == Fail(500, "Failed to get transactions")
    ensures r.reply.Ok? ==>
      && r.reply.status == 200 && r.reply.data.Many?
      && forall i :: 0 <= i < |r.reply.data.items| ==>
           HasType(r.reply.data.items[i], TransactionTag) && r.reply.data.items[i] in store.Values
    ensures r.reply.Ok? && Covers(env.order, store) ==>
      forall k :: k in store && HasType(store[k], TransactionTag) ==> store[k] in r.reply.data.items
    ensures r.reply.Ok? ==> ListsOnce(store, TypeIs(TransactionTag), r.reply.data.items, Covers(env.order, store))
  {
    match QueryByType(env, Db(store, 0), TransactionTag)
    case Thrown(db) => Refuse(db, 500, "Failed to get transactions")
    case Done(items, db) => Outcome(db.items, Ok(200, Many(items)))
  }

  /** A record with the transaction tag but nothing else is listed even
      though it is not a well-formed transaction. */
  lemma MalformedTransactionListed()
    ensures var junk := map[Id := Str("t"), Type := Str(TransactionTag)];
      var r := GetAllTransactions(map["t" := junk], Env("now", "n", None, ["t"]));
      && !IsTransaction(junk)
      && r.reply == Ok(200, Many([junk]))
  {
    var junk := map[Id := Str("t"), Type := Str(TransactionTag)];
    var store := map["t" := junk];
    assert TypeIs(TransactionTag)(junk);
    assert IndexIds(store, [], TypeIs(TransactionTag), {"t"}) == [];
    assert IndexIds(store, ["t"], TypeIs(TransactionTag), {}) == ["t"];
    assert Listing(store, ["t"], TypeIs(TransactionTag)) == [junk];
  }

  /** True iff the item stored under `id` carries the token tag: the only
      check `getTransactionsByToken` makes. */
  predicate TaggedToken(store: Store, id: string) {
    id in store && HasType(store[id], TokenTag)
  }

  /** `getTransactionsByToken`: the items whose `tokenId` is the given id,
      once that id is known to carry the token tag. */
  function GetTransactionsByToken(store: Store, env: Env, tokenId: string): (r: Outcome)
    ensures r.store == store
    ensures env.failAt != Some(0) && !TaggedToken(store, tokenId) ==> r.reply == Fail(404, "Token not found")
    ensures r.reply.Fail? && r.reply.status != 404 ==> r.reply == Fail(500, "Failed to get transactions")
    ensures r.reply.Ok? ==>
      && TaggedToken(store, tokenId)
      && r.reply.status == 200 && r.reply.data.Many?
      && forall i :: 0 <= i < |r.reply.data.items| ==>
           && TokenId in r.reply.data.items[i]
           && r.reply.data.items[i][TokenId] == Str(tokenId)
           && r.reply.data.items[i] in store.Values
    ensures r.reply.Ok? && Covers(env.order, store) ==>
      forall k :: k in store && TokenId in store[k] && store[k][TokenId] == Str(tokenId) ==>
        store[k] in r.reply.data.items
    ensures r.reply.Ok? ==> ListsOnce(store, TokenIdIs(tokenId), r.reply.data.items, Covers(env.order, store))
    ensures env.failAt.None? && TaggedToken(store, tokenId) ==> r.reply.Ok?
    ensures r.reply.Fail? && r.reply.status == 500 ==> env.failAt.Some?
  {
    match GetById(env, Db(store, 0), tokenId)
    case Thrown(db) => Refuse(db, 500, "Failed to get transactions")
    case Done(found, db1) =>
      if found.None? || !HasType(found.value, TokenTag) then Refuse(db1, 404, "Token not found")
      else
        match QueryByTokenId(env, db1, tokenId)
        case Thrown(db) => Refuse(db, 500, "Failed to get transactions")
        case Done(items, db2) => Outcome(db2.items, Ok(200, Many(items)))
  }

  /** The existence check looks at the tag only: a token-tagged record with
      none of the other token fields is accepted. */
  lemma TagOnlyTokenCheck()
    ensures var stub := map[Type := Str(TokenTag)];
      var r := GetTransactionsByToken(map["x" := stub], Env("now", "n", None, ["x"]), "x");
      && !IsToken(stub)
      && r.reply == Ok(200, Many([]))
  {
    var stub := map[Type := Str(TokenTag)];
    var store := map["x" := stub];
    assert !TokenIdIs("x")(stub);
    assert IndexIds(store, [], TokenIdIs("x"), {"x"}) == [];
    assert IndexIds(store, ["x"], TokenIdIs("x"), {}) == [];
    assert Listing(store, ["x"], TokenIdIs("x")) == [];
  }
}
