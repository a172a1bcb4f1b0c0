/** The token handlers (backend/src/controllers/tokenController.ts). Each is
    a total function from the store, the request's environment and the
    request to the store afterwards and the reply. */
module TokenController {
  import opened Types
  import opened Database
  import opened Http

  /** `createTokenSchema` */
  predicate ValidNewToken(body: Body) {
    && OnlyKeys(body, {Name, Color, Icon})
    && Name in body && JoiText(body[Name], 1, 100)
    && Color in body && JoiText(body[Color], 1, 7)
    && Icon in body && JoiText(body[Icon], 1, 50)
  }

  /** `updateTokenSchema`, used by updateToken, earnTokens and spendTokens:
      an integer amount with no lower bound and a non-empty description of at
      most 500 characters, both required. */
  predicate ValidAdjustment(body: Body) {
    && OnlyKeys(body, {Amount, Description})
    && Amount in body && JoiInteger(body[Amount])
    && Description in body && JoiText(body[Description], 0, 500)
  }

  function AmountOf(body: Body): real
    requires ValidAdjustment(body)
  {
    body[Amount].n
  }

  function DescriptionOf(body: Body): string
    requires ValidAdjustment(body)
  {
    body[Description].s
  }

  /** The ids of the transaction-tagged records of `store`. */
  function TransactionIds(store: Store): set<string> {
    set k | k in store && HasType(store[k], TransactionTag)
  }

  /** `getAllTokens`: the well-formed tokens among the token-tagged items. */
  function GetAllTokens(store: Store, env: Env): (r: Outcome)
    ensures r.store == store
    ensures r.reply.Ok? <==> env.failAt != Some(0)
    ensures r.reply.Fail? ==> r.reply == Fail(500, "Failed to get tokens")
    ensures r.reply.Ok? ==>
      && r.reply.status == 200 && r.reply.data.Many?
      && forall i :: 0 <= i < |r.reply.data.items| ==>
           IsToken(r.reply.data.items[i]) && r.reply.data.items[i] in store.Values
    ensures r.reply.Ok? && Covers(env.order, store) ==>
      forall k :: HoldsToken(store, k) ==> store[k] in r.reply.data.items
    ensures r.reply.Ok? ==> ListsOnce(store, IsToken, r.reply.data.items, Covers(env.order, store))
  {
    match QueryByType(env, Db(store, 0), TokenTag)
    case Thrown(db) => Refuse(db, 500, "Failed to get tokens")
    case Done(items, db) =>
      FilterListsOnce(store, TypeIs(TokenTag), IsToken, items, Covers(env.order, store));
      Outcome(db.items, Ok(200, Many(FilterTokens(items))))
  }

  /** An index walk that reaches the same id twice still lists that token
      once. */
  lemma RepeatedIdListedOnce(t: Item)
    requires IsToken(t)
    ensures GetAllTokens(map["x" := t], Env("now", "n", None, ["x", "x"])).reply == Ok(200, Many([t]))
  {
    var store := map["x" := t];
    assert IndexIds(store, [], TypeIs(TokenTag), {"x"}) == [];
    assert IndexIds(store, ["x"], TypeIs(TokenTag), {"x"}) == [];
    assert ["x", "x"][1..] == ["x"] && {} + {"x"} == {"x"};
    assert IndexIds(store, ["x", "x"], TypeIs(TokenTag), {}) == ["x"];
    assert Listing(store, ["x", "x"], TypeIs(TokenTag)) == [t];
    assert Filter([t], IsToken) == [t];
  }

  /** `createToken`: a new token with a zero balance under a fresh id. */
  function CreateToken(store: Store, env: Env, body: Body): (r: Outcome)
    ensures !ValidNewToken(body) ==> r.reply.Fail? && r.reply.status == 400 && r.store == store
    ensures r.reply.Fail? ==> r.store == store
    ensures r.reply.Ok? <==> ValidNewToken(body) && env.failAt != Some(0)
    ensures r.reply.Ok? ==>
      && r.reply.status == 201 && r.reply.data.One?
      && IsToken(r.reply.data.item) && Balance(r.reply.data.item) == 0.0
      && r.reply.data.item[Name] == body[Name]
      && r.reply.data.item[Color] == body[Color]
      && r.reply.data.item[Icon] == body[Icon]
      && r.store == store[NewTokenId(env) := r.reply.data.item]
  {
    if !ValidNewToken(body) then Outcome(store, Fail(400, ValidationError))
    else
      match Database.CreateToken(env, Db(store, 0), body[Name].s, body[Color].s, body[Icon].s)
      case Thrown(db) => Refuse(db, 500, "Failed to create token")
      case Done(token, db) => Outcome(db.items, Ok(201, One(token)))
  }

  /** Merging an `updateTokenSchema` body into a token leaves a token whose
      name, colour, icon and balance are untouched. */
  lemma AdjustmentMerge(before: Item, body: Body, now: string, after: Item)
    requires IsToken(before) && ValidAdjustment(body)
    requires Merged(before, body, now, after)
    ensures IsToken(after)
    ensures Amount in after && after[Amount] == body[Amount]
    ensures Description in after && after[Description] == body[Description]
    ensures forall k :: k != Amount && k != Description && k != UpdatedAt ==> SameOn(before, after, k)
  {
    MergedFrame(before, body, now, after);
    assert MergedAt(before, body, after, Amount) && MergedAt(before, body, after, Description);
    assert SameOn(before, after, Name) && SameOn(before, after, Count) && SameOn(before, after, Color);
    assert SameOn(before, after, Icon) && SameOn(before, after, CreatedAt);
  }

  /** `updateToken`: merges the `amount` and `description` keys of the body
      into the token record; it never edits the name, colour, icon or count. */
  function UpdateToken(store: Store, env: Env, id: string, body: Body): (r: Outcome)
    ensures r.reply.Fail? ==> r.store == store
    ensures id == "" ==> r.reply == Fail(400, "Token ID is required")
    ensures id != "" && !ValidAdjustment(body) ==> r.reply == Fail(400, ValidationError)
    ensures id != "" && ValidAdjustment(body) && env.failAt != Some(0) && !HoldsToken(store, id) ==>
      r.reply == Fail(404, "Token not found")
    ensures r.reply.Ok? ==>
      && ValidAdjustment(body) && HoldsToken(store, id)
      && r.reply.status == 200 && r.reply.data.One?
      && IsToken(r.reply.data.item)
      && r.store == store[id := r.reply.data.item]
      && Amount in r.reply.data.item && r.reply.data.item[Amount] == body[Amount]
      && Description in r.reply.data.item && r.reply.data.item[Description] == body[Description]
      && forall k :: k != Amount && k != Description && k != UpdatedAt ==> SameOn(store[id], r.reply.data.item, k)
    ensures id != "" && ValidAdjustment(body) && env.failAt.None? && HoldsToken(store, id) ==> r.reply.Ok?
    ensures r.reply.Fail? && r.reply.status == 500 ==> env.failAt.Some?
  {
    if id == "" then Outcome(store, Fail(400, "Token ID is required"))
    else if !ValidAdjustment(body) then Outcome(store, Fail(400, ValidationError))
    else
      match GetById(env, Db(store, 0), id)
      case Thrown(db) => Refuse(db, 500, "Failed to update token")
      case Done(found, db1) =>
        if found.None? || !IsToken(found.value) then Refuse(db1, 404, "Token not found")
        else
          match Update(env, db1, id, body)
          case Thrown(db) => Refuse(db, 500, "Failed to update token")
          case Done(updated, db2) =>
            AdjustmentMerge(found.value, body, env.now, updated);
            if !IsToken(updated) then Refuse(db2, 500, "Failed to update token")
            else Outcome(db2.items, Ok(200, One(updated)))
  }

  /** `deleteToken`: removes the token record and nothing else. */
  function DeleteToken(store: Store, env: Env, id: string): (r: Outcome)
    ensures r.reply.Fail? ==> r.store == store
    ensures id != "" && env.failAt != Some(0) && !HoldsToken(store, id) ==> r.reply == Fail(404, "Token not found")
    ensures r.reply.Ok? ==> HoldsToken(store, id) && r.store == store - {id} && r.reply == Ok(200, NoData)
    ensures id != "" && env.failAt.None? && HoldsToken(store, id) ==> r.reply.Ok?
    ensures r.reply.Fail? && r.reply.status == 500 ==> env.failAt.Some?
  {
    if id == "" then Outcome(store, Fail(400, "Token ID is required"))
    else
      match GetById(env, Db(store, 0), id)
      case Thrown(db) => Refuse(db, 500, "Failed to delete token")
      case Done(found, db1) =>
        if found.None? || !IsToken(found.value) then Refuse(db1, 404, "Token not found")
        else
          match Delete(env, db1, id)
          case Thrown(db) => Refuse(db, 500, "Failed to delete token")
          case Done(_, db2) => Outcome(db2.items, Ok(200, NoData))
  }

  /** Deleting a token does not cascade: every other record, including each
      reward whose `tokenType` names it, is still there unchanged. */
  lemma DeleteTokenKeepsRewards(store: Store, env: Env, id: string)
    ensures var r := DeleteToken(store, env, id);
      forall k :: k in store && k != id ==> k in r.store && r.store[k] == store[k]
  {
  }

  function CatchMessage(kind: Kind): string {
    match kind
    case Earn => "Failed to earn tokens"
    case Spend => "Failed to spend tokens"
  }

  /** A successful earn or spend: the token's balance moved by the signed
      amount (clamped at 0) and exactly one log entry written under the
      request's fresh id, naming the token as it was before. */
  ghost predicate Adjusted(before: Store, after: Store, env: Env, id: string, kind: Kind, body: Body, reply: Reply) {
    && ValidAdjustment(body) && HoldsToken(before, id)
    && (kind == Spend ==> Balance(before[id]) >= AmountOf(body))
    && reply.Ok? && reply.status == 200 && reply.data.One?
    && Recounted(before[id], Delta(kind, AmountOf(body)), env.now, reply.data.item)
    && var tx := NewTransactionId(env);
       && tx in after
       && after == before[id := reply.data.item][tx := after[tx]]
       && Logs(after[tx], kind, id, before[id][Name].s, AmountOf(body), DescriptionOf(body), env.now)
  }

  /** A server error during earn or spend leaves the store as it was, or
      with only the balance update applied: never a log entry. */
  ghost predicate AtMostRecounted(before: Store, after: Store, env: Env, id: string, kind: Kind, body: Body) {
    || after == before
    || (&& ValidAdjustment(body) && HoldsToken(before, id) && id in after
        && after == before[id := after[id]]
        && Recounted(before[id], Delta(kind, AmountOf(body)), env.now, after[id]))
  }

  /** The shared body of `earnTokens` and `spendTokens`. */
  function Adjust(store: Store, env: Env, id: string, body: Body, kind: Kind): (r: Outcome)
    ensures !ValidAdjustment(body) ==> r.reply.Fail? && r.reply.status == 400 && r.store == store
    ensures ValidAdjustment(body) && id != "" && env.failAt != Some(0) && !HoldsToken(store, id) ==>
      r.reply == Fail(404, "Token not found") && r.store == store
    ensures r.reply.Fail? && r.reply.status != 500 ==> r.store == store
    ensures r.reply.Fail? && r.reply.status == 500 ==> AtMostRecounted(store, r.store, env, id, kind, body)
    ensures r.reply.Ok? ==> Adjusted(store, r.store, env, id, kind, body, r.reply)
    ensures (&& ValidAdjustment(body) && id != "" && env.failAt.None? && HoldsToken(store, id)
             && (kind == Spend ==> Balance(store[id]) >= AmountOf(body))) ==> r.reply.Ok?
    ensures r.reply.Fail? && r.reply.status == 500 ==> env.failAt.Some?
  {
    if !ValidAdjustment(body) then Outcome(store, Fail(400, ValidationError))
    else if id == "" then Outcome(store, Fail(400, "Token ID is required"))
    else
      var amount := AmountOf(body);
      match GetById(env, Db(store, 0), id)
      case Thrown(db) => Refuse(db, 500, CatchMessage(kind))
      case Done(found, db1) =>
        if found.None? || !IsToken(found.value) then Refuse(db1, 404, "Token not found")
        else if kind == Spend && Balance(found.value) < amount then Refuse(db1, 400, "Insufficient tokens")
        else
          match UpdateTokenCount(env, db1, id, Delta(kind, amount))
          case Thrown(db) => Refuse(db, 500, CatchMessage(kind))
          case Done(None, db2) => Refuse(db2, 500, "Failed to update token count")
          case Done(Some(updated), db2) =>
            match CreateTransaction(env, db2, kind, id, found.value[Name].s, amount, DescriptionOf(body))
            case Thrown(db) => Refuse(db, 500, CatchMessage(kind))
            case Done(_, db3) => Outcome(db3.items, Ok(200, One(updated)))
  }

  /** `earnTokens`: the balance becomes `max(0, count + amount)`. */
  function EarnTokens(store: Store, env: Env, id: string, body: Body): (r: Outcome)
    ensures r.reply.Fail? && r.reply.status != 500 ==> r.store == store
    ensures r.reply.Ok? ==>
      && ValidAdjustment(body) && HoldsToken(store, id) && r.reply.data.One? && IsToken(r.reply.data.item)
      && Balance(r.reply.data.item) == Max0(Balance(store[id]) + AmountOf(body))
    ensures ValidAdjustment(body) && id != "" && env.failAt.None? && HoldsToken(store, id) ==> r.reply.Ok?
    ensures r.reply.Fail? && r.reply.status == 500 ==> env.failAt.Some?
  {
    Adjust(store, env, id, body, Earn)
  }

  /** `spendTokens`: refused with "Insufficient tokens" when the balance is
      below the amount; otherwise the balance drops by exactly the amount,
      since the check makes the clamp a no-op. */
  function SpendTokens(store: Store, env: Env, id: string, body: Body): (r: Outcome)
    ensures r.reply.Fail? && r.reply.status != 500 ==> r.store == store
    ensures (&& ValidAdjustment(body) && id != "" && env.failAt != Some(0) && HoldsToken(store, id)
             && Balance(store[id]) < AmountOf(body)) ==>
      r.reply == Fail(400, "Insufficient tokens") && r.store == store
    ensures r.reply.Ok? ==>
      && ValidAdjustment(body) && HoldsToken(store, id) && r.reply.data.One? && IsToken(r.reply.data.item)
      && Balance(store[id]) >= AmountOf(body)
      && Balance(r.reply.data.item) == Balance(store[id]) - AmountOf(body)
    ensures (&& ValidAdjustment(body) && id != "" && env.failAt.None? && HoldsToken(store, id)
             && Balance(store[id]) >= AmountOf(body)) ==> r.reply.Ok?
    ensures r.reply.Fail? && r.reply.status == 500 ==> env.failAt.Some?
  {
    Adjust(store, env, id, body, Spend)
  }

  /** The amount has no lower bound, so "spending" a negative amount raises
      the balance. */
  lemma NegativeSpendRaisesBalance(store: Store, env: Env, id: string, body: Body)
    requires ValidAdjustment(body) && AmountOf(body) < 0.0
    requires id != "" && env.failAt.None? && HoldsToken(store, id) && Balance(store[id]) >= 0.0
    ensures var r := SpendTokens(store, env, id, body);
      r.reply.Ok? && r.reply.data.One? && Balance(r.reply.data.item) > Balance(store[id])
  {
  }

  /** Writing one record changes the transaction ids by at most that key. */
  lemma TransactionIdsAfterWrite(store: Store, k: string, v: Item)
    ensures TransactionIds(store[k := v]) ==
      if HasType(v, TransactionTag) then TransactionIds(store) + {k} else TransactionIds(store) - {k}
  {
  }

  /** A successful earn or spend adds exactly one transaction record when the
      generated id is fresh; a failed one adds none. */
  lemma AdjustLogsOnce(store: Store, env: Env, id: string, body: Body, kind: Kind)
    requires NewTransactionId(env) !in store
    ensures var r := Adjust(store, env, id, body, kind);
      && (r.reply.Ok? ==> TransactionIds(r.store) == TransactionIds(store) + {NewTransactionId(env)})
      && (r.reply.Fail? ==> TransactionIds(r.store) == TransactionIds(store))
  {
    var r := Adjust(store, env, id, body, kind);
    var tx := NewTransactionId(env);
    if r.reply.Ok? {
      var token := r.reply.data.item;
      var mid := store[id := token];
      TransactionIdsAfterWrite(store, id, token);
      assert !HasType(token, TransactionTag);
      assert id !in TransactionIds(store);
      assert TransactionIds(mid) == TransactionIds(store);
      TransactionIdsAfterWrite(mid, tx, r.store[tx]);
    } else if r.store != store {
      TransactionIdsAfterWrite(store, id, r.store[id]);
      assert !HasType(store[id], TransactionTag);
      assert !HasType(r.store[id], TransactionTag);
    }
  }
}
