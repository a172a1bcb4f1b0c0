/** The store service (backend/src/services/database.ts): one table of items
    keyed by id, the generic put/get/update/delete/query calls, and the
    token, reward and transaction operations built on them.

    Everything the service takes from its surroundings is an explicit
    parameter `Env` of the request: the timestamp every `new Date()` yields,
    the random suffix of a generated id, which store call (if any) throws,
    and the order in which the secondary indexes list their items. */
module Database {
  import opened Types

  type Store = map<string, Item>

  datatype Kind = Earn | Spend

  /** The request's view of the outside world. `failAt == Some(k)` makes the
      k-th store call of the request (counting from 0) throw. */
  datatype Env = Env(now: string, nonce: string, failAt: Option<nat>, order: seq<string>)

  /** The store as a request sees it, with the number of store calls made. */
  datatype Db = Db(items: Store, calls: nat)

  /** A store call either completes with a value or throws; either way the
      state reached so far survives. */
  datatype Attempt<T> = Done(value: T, db: Db) | Thrown(db: Db)

  /** Whether the next store call throws. */
  predicate Fails(env: Env, db: Db) {
    env.failAt == Some(db.calls)
  }

  function Next(db: Db, items: Store): Db {
    Db(items, db.calls + 1)
  }

  function KindTag(kind: Kind): string {
    match kind
    case Earn => "earn"
    case Spend => "spend"
  }

  /** The signed change `kind` makes to a balance. */
  function Delta(kind: Kind, amount: real): real {
    match kind
    case Earn => amount
    case Spend => -amount
  }

  /** `Math.max(0, x)` */
  function Max0(x: real): (r: real)
    ensures r >= 0.0 && r >= x
    ensures r == 0.0 || r == x
  {
    if x < 0.0 then 0.0 else x
  }

  function NewTokenId(env: Env): string { "token_" + env.nonce }
  function NewRewardId(env: Env): string { "reward_" + env.nonce }
  function NewTransactionId(env: Env): string { "transaction_" + env.nonce }

  /** True iff `id` names a well-formed token of `store`. */
  predicate HoldsToken(store: Store, id: string) {
    id in store && IsToken(store[id])
  }

  /** True iff `id` names a well-formed reward of `store`. */
  predicate HoldsReward(store: Store, id: string) {
    id in store && IsReward(store[id])
  }

  // ---------------------------------------------------------------------
  // Generic operations
  // ---------------------------------------------------------------------

  /** `create`: store the item under its id with both timestamps set to the
      same instant, and return the stored record. */
  function Create(env: Env, db: Db, item: Item): (r: Attempt<Item>)
    requires IsString(item, Id)
    ensures r.Thrown? <==> Fails(env, db)
    ensures r.Thrown? ==> r.db.items == db.items
    ensures r.Done? ==> r.db.items == db.items[item[Id].s := r.value]
    ensures r.Done? ==> r.value.Keys == item.Keys + {CreatedAt, UpdatedAt}
    ensures r.Done? ==> r.value[CreatedAt] == r.value[UpdatedAt] == Str(env.now)
    ensures r.Done? ==> forall k :: k in item && k != CreatedAt && k != UpdatedAt ==> r.value[k] == item[k]
  {
    if Fails(env, db) then Thrown(db)
    else
      var stored := Stamp(item, env.now);
      Done(stored, Next(db, db.items[item[Id].s := stored]))
  }

  /** `{ ...item, createdAt: now, updatedAt: now }` */
  function Stamp(item: Item, now: string): Item {
    item[CreatedAt := Str(now)][UpdatedAt := Str(now)]
  }

  /** Stamping a record with every token field but the timestamps yields a
      token with the same fields. */
  lemma StampedToken(token: Item, now: string)
    requires HasType(token, TokenTag) && IsString(token, Name) && IsNumber(token, Count)
    requires IsString(token, Color) && IsString(token, Icon)
    ensures IsToken(Stamp(token, now))
    ensures forall k :: k != CreatedAt && k != UpdatedAt ==> SameOn(token, Stamp(token, now), k)
  {
  }

  /** Stamping a record with every reward field but the timestamps and,
      possibly, the description yields a reward exactly when the description
      is there. */
  lemma StampedReward(reward: Item, now: string)
    requires HasType(reward, RewardTag) && IsString(reward, Name) && IsNumber(reward, TokenCost)
    requires IsString(reward, TokenType) && IsBoolean(reward, IsActive)
    ensures IsReward(Stamp(reward, now)) <==> IsString(reward, Description)
    ensures forall k :: k != CreatedAt && k != UpdatedAt ==> SameOn(reward, Stamp(reward, now), k)
  {
  }

  /** Stamping a log entry keeps it the same log entry. */
  lemma StampedTransaction(tx: Item, kind: Kind, tokenId: string, tokenName: string, amount: real, description: string, now: string)
    requires Logs(tx, kind, tokenId, tokenName, amount, description, now)
    ensures Logs(Stamp(tx, now), kind, tokenId, tokenName, amount, description, now)
    ensures SameOn(tx, Stamp(tx, now), Id)
  {
  }

  /** `getById`: the item stored under `id`, if any. */
  function GetById(env: Env, db: Db, id: string): (r: Attempt<Option<Item>>)
    ensures r.Thrown? <==> Fails(env, db)
    ensures r.db.items == db.items
    ensures r.Done? ==> (r.value.Some? <==> id in db.items)
    ensures r.Done? && r.value.Some? ==> r.value.value == db.items[id]
  {
    if Fails(env, db) then Thrown(db)
    else Done(if id in db.items then Some(db.items[id]) else None, Next(db, db.items))
  }

  /** Which keys of `updates` the update writes. */
  predicate Assignable(updates: Item, key: Field) {
    key in updates && key != Id && key != Type
  }

  /** What an update promises about field `key` (other than `updatedAt`):
      written when the update assigns it, untouched (present or absent as
      before) otherwise. `id` and `type` are never assigned. */
  ghost predicate MergedAt(before: Item, updates: Item, after: Item, key: Field) {
    if Assignable(updates, key) then key in after && after[key] == updates[key]
    else SameOn(before, after, key)
  }

  /** What an update promises about the record it leaves behind: every key
      of `updates` but `id` and `type` written, `updatedAt` refreshed, and
      nothing else touched. */
  ghost predicate Merged(before: Item, updates: Item, now: string, after: Item) {
    && UpdatedAt in after && after[UpdatedAt] == Str(now)
    && forall k :: k != UpdatedAt ==> MergedAt(before, updates, after, k)
  }

  function Merge(current: Item, updates: Item, now: string): Item {
    var written := map k | k in current.Keys + updates.Keys && (k in current || Assignable(updates, k))
      :: if Assignable(updates, k) then updates[k] else current[k];
    written[UpdatedAt := Str(now)]
  }

  /** `update`: merge `updates` into the stored record. The id must be
      present: every caller has just read the record. */
  function Update(env: Env, db: Db, id: string, updates: Item): (r: Attempt<Item>)
    requires id in db.items
    ensures r.Thrown? <==> Fails(env, db)
    ensures r.Thrown? ==> r.db.items == db.items
    ensures r.Done? ==> r.db.items == db.items[id := r.value]
    ensures r.Done? ==> Merged(db.items[id], updates, env.now, r.value)
  {
    if Fails(env, db) then Thrown(db)
    else
      var after := Merge(db.items[id], updates, env.now);
      Done(after, Next(db, db.items[id := after]))
  }

  /** `delete`: remove the id; the call reports success. */
  function Delete(env: Env, db: Db, id: string): (r: Attempt<bool>)
    ensures r.Thrown? <==> Fails(env, db)
    ensures r.Thrown? ==> r.db.items == db.items
    ensures r.Done? ==> r.value && r.db.items == db.items - {id} && id !in r.db.items
  {
    if Fails(env, db) then Thrown(db)
    else Done(true, Next(db, db.items - {id}))
  }

  /** No id occurs twice. */
  predicate NoRepeats(ids: seq<string>) {
    forall i, j :: 0 <= i < j < |ids| ==> ids[i] != ids[j]
  }

  /** `r` is the records stored under `ids`, in that order, and `ids` names
      each stored key at most once and only keys whose record `keep` accepts. */
  ghost predicate Enumerates(items: Store, keep: Item -> bool, ids: seq<string>, r: seq<Item>) {
    && |ids| == |r|
    && NoRepeats(ids)
    && forall i :: 0 <= i < |ids| ==> ids[i] in items && items[ids[i]] == r[i] && keep(r[i])
  }

  /** `r` lists stored records accepted by `keep`, each stored key
      contributing at most once; when `complete`, every stored record that
      `keep` accepts is listed. */
  ghost predicate ListsOnce(items: Store, keep: Item -> bool, r: seq<Item>, complete: bool) {
    exists ids ::
      && Enumerates(items, keep, ids, r)
      && (complete ==> forall k :: k in items && keep(items[k]) ==> k in ids)
  }

  /** The ids an index yields as it walks `order`: each stored id whose item
      `keep` accepts, at its first visit, skipping the ids in `seen`. */
  function IndexIds(items: Store, order: seq<string>, keep: Item -> bool, seen: set<string>): (ids: seq<string>)
    ensures NoRepeats(ids)
    ensures forall i :: 0 <= i < |ids| ==> ids[i] in items && keep(items[ids[i]]) && ids[i] !in seen
    ensures forall k :: k in order && k !in seen && k in items && keep(items[k]) ==> k in ids
  {
    if |order| == 0 then []
    else
      var k := order[0];
      var rest := IndexIds(items, order[1..], keep, seen + {k});
      assert forall j :: j in order ==> j == k || j in order[1..];
      if k !in seen && k in items && keep(items[k]) then [k] + rest else rest
  }

  /** The items an index lists, in the order `order` first visits their ids;
      an index lists each item once however often `order` repeats its id. */
  function Listing(items: Store, order: seq<string>, keep: Item -> bool): (r: seq<Item>)
    ensures forall i :: 0 <= i < |r| ==> keep(r[i]) && r[i] in items.Values
    ensures forall k :: k in order && k in items && keep(items[k]) ==> items[k] in r
    ensures ListsOnce(items, keep, r, Covers(order, items))
  {
    var ids := IndexIds(items, order, keep, {});
    var r := seq(|ids|, i requires 0 <= i < |ids| => items[ids[i]]);
    assert Enumerates(items, keep, ids, r);
    assert forall k :: k in ids ==> items[k] in r by {
      forall k | k in ids ensures items[k] in r {
        var i :| 0 <= i < |ids| && ids[i] == k;
        assert r[i] == items[k];
      }
    }
    r
  }

  /** The ids among `ids` whose record `keep` accepts, in order. */
  function KeepIds(items: Store, ids: seq<string>, keep: Item -> bool): seq<string>
    requires forall i :: 0 <= i < |ids| ==> ids[i] in items
  {
    if |ids| == 0 then []
    else (if keep(items[ids[0]]) then [ids[0]] else []) + KeepIds(items, ids[1..], keep)
  }

  lemma EnumeratesTail(items: Store, keep: Item -> bool, ids: seq<string>, r: seq<Item>)
    requires Enumerates(items, keep, ids, r) && |ids| > 0
    ensures Enumerates(items, keep, ids[1..], r[1..])
    ensures ids[0] in items && items[ids[0]] == r[0] && ids[0] !in ids[1..]
  {
    assert forall i :: 0 <= i < |ids| - 1 ==> ids[1..][i] == ids[i + 1] && r[1..][i] == r[i + 1];
  }

  lemma EnumeratesCons(items: Store, keep: Item -> bool, h: string, ids: seq<string>, x: Item, r: seq<Item>)
    requires Enumerates(items, keep, ids, r)
    requires h in items && items[h] == x && keep(x) && h !in ids
    ensures Enumerates(items, keep, [h] + ids, [x] + r)
  {
    assert forall i :: 0 < i <= |ids| ==> ([h] + ids)[i] == ids[i - 1] && ([x] + r)[i] == r[i - 1];
  }

  /** Filtering a listing keeps it a listing: the survivors are the records
      of the surviving ids, still each at most once. */
  lemma {:induction false} FilterEnumerates(items: Store, keep: Item -> bool, ids: seq<string>, r: seq<Item>, p: Item -> bool)
    requires Enumerates(items, keep, ids, r)
    ensures Enumerates(items, p, KeepIds(items, ids, p), Filter(r, p))
    ensures forall k :: k in ids && k in items && p(items[k]) ==> k in KeepIds(items, ids, p)
    ensures forall k :: k in KeepIds(items, ids, p) ==> k in ids
  {
    if |ids| > 0 {
      EnumeratesTail(items, keep, ids, r);
      FilterEnumerates(items, keep, ids[1..], r[1..], p);
      var rest := KeepIds(items, ids[1..], p);
      var fr := Filter(r[1..], p);
      assert Filter(r, p) == if p(r[0]) then [r[0]] + fr else fr;
      assert KeepIds(items, ids, p) == (if p(r[0]) then [ids[0]] else []) + rest;
      if p(r[0]) {
        EnumeratesCons(items, p, ids[0], rest, r[0], fr);
      } else {
        assert KeepIds(items, ids, p) == rest;
      }
      assert forall k :: k in ids ==> k == ids[0] || k in ids[1..];
    }
  }

  /** A listing filtered by a guard stricter than the index's is a listing
      for that guard, complete when the index listing was. */
  lemma FilterListsOnce(items: Store, keep: Item -> bool, p: Item -> bool, r: seq<Item>, complete: bool)
    requires ListsOnce(items, keep, r, complete)
    requires forall x :: p(x) ==> keep(x)
    ensures ListsOnce(items, p, Filter(r, p), complete)
  {
    var ids :| Enumerates(items, keep, ids, r) && (complete ==> forall k :: k in items && keep(items[k]) ==> k in ids);
    FilterEnumerates(items, keep, ids, r, p);
    var kept := KeepIds(items, ids, p);
    assert Enumerates(items, p, kept, Filter(r, p));
  }

  /** True iff `order` visits every stored id. */
  predicate Covers(order: seq<string>, items: Store) {
    forall k :: k in items ==> k in order
  }

  function TypeIs(tag: string): Item -> bool {
    item => HasType(item, tag)
  }

  function TokenIdIs(tokenId: string): Item -> bool {
    item => TokenId in item && item[TokenId] == Str(tokenId)
  }

  /** `queryByType`: the items whose `type` is `tag`, through the type index. */
  function QueryByType(env: Env, db: Db, tag: string): (r: Attempt<seq<Item>>)
    ensures r.Thrown? <==> Fails(env, db)
    ensures r.db.items == db.items
    ensures r.Done? ==> forall i :: 0 <= i < |r.value| ==> HasType(r.value[i], tag) && r.value[i] in db.items.Values
    ensures r.Done? && Covers(env.order, db.items) ==>
      forall k :: k in db.items && HasType(db.items[k], tag) ==> db.items[k] in r.value
    ensures r.Done? ==> ListsOnce(db.items, TypeIs(tag), r.value, Covers(env.order, db.items))
  {
    if Fails(env, db) then Thrown(db)
    else Done(Listing(db.items, env.order, TypeIs(tag)), Next(db, db.items))
  }

  /** `queryByTokenId`: the items whose `tokenId` is `tokenId`, through the
      tokenId index. */
  function QueryByTokenId(env: Env, db: Db, tokenId: string): (r: Attempt<seq<Item>>)
    ensures r.Thrown? <==> Fails(env, db)
    ensures r.db.items == db.items
    ensures r.Done? ==> forall i :: 0 <= i < |r.value| ==>
      TokenId in r.value[i] && r.value[i][TokenId] == Str(tokenId) && r.value[i] in db.items.Values
    ensures r.Done? && Covers(env.order, db.items) ==>
      forall k :: k in db.items && TokenId in db.items[k] && db.items[k][TokenId] == Str(tokenId) ==> db.items[k] in r.value
    ensures r.Done? ==> ListsOnce(db.items, TokenIdIs(tokenId), r.value, Covers(env.order, db.items))
  {
    if Fails(env, db) then Thrown(db)
    else Done(Listing(db.items, env.order, TokenIdIs(tokenId)), Next(db, db.items))
  }

  // ---------------------------------------------------------------------
  // Tokens
  // ---------------------------------------------------------------------

  /** `createToken`: a fresh token with a zero balance. */
  function CreateToken(env: Env, db: Db, name: string, color: string, icon: string): (r: Attempt<Item>)
    ensures r.Thrown? <==> Fails(env, db)
    ensures r.Thrown? ==> r.db.items == db.items
    ensures r.Done? ==> r.db.items == db.items[NewTokenId(env) := r.value]
    ensures r.Done? ==>
      && IsToken(r.value) && Balance(r.value) == 0.0
      && Id in r.value && r.value[Id] == Str(NewTokenId(env))
      && r.value[Name] == Str(name) && r.value[Color] == Str(color) && r.value[Icon] == Str(icon)
  {
    var token := map[Id := Str(NewTokenId(env)), Type := Str(TokenTag), Name := Str(name),
                     Count := Num(0.0), Color := Str(color), Icon := Str(icon)];
    StampedToken(token, env.now);
    match Create(env, db, token)
    case Thrown(db') => Thrown(db')
    case Done(created, db') => if !IsToken(created) then Thrown(db') else Done(created, db')
  }

  /** The token record after `updateTokenCount` has moved its balance by
      `amount`: the clamped count and a fresh `updatedAt`, all else as before. */
  ghost predicate Recounted(before: Item, amount: real, now: string, after: Item)
    requires IsToken(before)
  {
    && IsToken(after)
    && Balance(after) == Max0(Balance(before) + amount)
    && after[UpdatedAt] == Str(now)
    && forall k :: k != Count && k != UpdatedAt ==> SameOn(before, after, k)
  }

  /** `updateTokenCount`: move a token's balance by `amount`, never below 0. */
  function UpdateTokenCount(env: Env, db: Db, id: string, amount: real): (r: Attempt<Option<Item>>)
    ensures r.Thrown? ==> r.db.items == db.items
    ensures r.Done? ==> (r.value.Some? <==> id in db.items && IsToken(db.items[id]))
    ensures r.Done? && r.value.None? ==> r.db.items == db.items
    ensures r.Done? && r.value.Some? ==>
      && id in db.items && IsToken(db.items[id])
      && r.db.items == db.items[id := r.value.value]
      && Recounted(db.items[id], amount, env.now, r.value.value)
    ensures env.failAt.None? ==> r.Done?
  {
    match GetById(env, db, id)
    case Thrown(db') => Thrown(db')
    case Done(found, db1) =>
      if found.None? || !IsToken(found.value) then Done(None, db1)
      else
        var updates := map[Count := Num(Max0(Balance(found.value) + amount))];
        match Update(env, db1, id, updates)
        case Thrown(db') => Thrown(db')
        case Done(updated, db2) =>
          RecountMerge(found.value, amount, updates, env.now, updated);
          if !IsToken(updated) then Done(None, db2) else Done(Some(updated), db2)
  }

  /** Fields an update does not name keep their value, and `id` and `type`
      never change. */
  lemma MergedFrame(before: Item, updates: Item, now: string, after: Item)
    requires Merged(before, updates, now, after)
    ensures forall k :: k !in updates && k != UpdatedAt ==> SameOn(before, after, k)
    ensures SameOn(before, after, Id) && SameOn(before, after, Type)
  {
    assert MergedAt(before, updates, after, Id) && MergedAt(before, updates, after, Type);
    forall k | k !in updates && k != UpdatedAt
      ensures SameOn(before, after, k)
    {
      assert MergedAt(before, updates, after, k);
    }
  }

  lemma RecountMerge(before: Item, amount: real, updates: Item, now: string, after: Item)
    requires IsToken(before)
    requires updates == map[Count := Num(Max0(Balance(before) + amount))]
    requires Merged(before, updates, now, after)
    ensures Recounted(before, amount, now, after)
  {
    MergedFrame(before, updates, now, after);
    assert MergedAt(before, updates, after, Count);
    assert SameOn(before, after, Name) && SameOn(before, after, Color) && SameOn(before, after, Icon);
    assert SameOn(before, after, CreatedAt);
  }

  // ---------------------------------------------------------------------
  // Rewards
  // ---------------------------------------------------------------------

  /** `createReward`: a fresh, active reward. A missing description leaves
      the field `undefined`: the record is still written, but it fails the
      reward guard that follows, and the call throws. */
  function CreateReward(env: Env, db: Db, name: string, description: Option<string>, tokenCost: real, tokenType: string)
    : (r: Attempt<Item>)
    ensures r.Thrown? <==> Fails(env, db) || description.None?
    ensures Fails(env, db) ==> r.db.items == db.items
    ensures !Fails(env, db) ==>
      && NewRewardId(env) in r.db.items
      && r.db.items == db.items[NewRewardId(env) := r.db.items[NewRewardId(env)]]
      && HasType(r.db.items[NewRewardId(env)], RewardTag)
      && (IsReward(r.db.items[NewRewardId(env)]) <==> description.Some?)
    ensures r.Done? ==>
      && r.db.items[NewRewardId(env)] == r.value
      && IsReward(r.value) && r.value[IsActive] == Bool(true)
      && Id in r.value && r.value[Id] == Str(NewRewardId(env))
      && r.value[Name] == Str(name) && r.value[Description] == Str(description.value)
      && r.value[TokenCost] == Num(tokenCost) && r.value[TokenType] == Str(tokenType)
  {
    var fields := map[Id := Str(NewRewardId(env)), Type := Str(RewardTag), Name := Str(name),
                      TokenCost := Num(tokenCost), TokenType := Str(tokenType), IsActive := Bool(true)];
    var reward := if description.Some? then fields[Description := Str(description.value)] else fields;
    StampedReward(reward, env.now);
    match Create(env, db, reward)
    case Thrown(db') => Thrown(db')
    case Done(created, db') => if !IsReward(created) then Thrown(db') else Done(created, db')
  }

  /** The reward record after a toggle: `isActive` negated, `updatedAt`
      refreshed, all else as before. */
  ghost predicate Toggled(before: Item, now: string, after: Item)
    requires IsReward(before)
  {
    && IsReward(after)
    && after[IsActive] == Bool(!before[IsActive].b)
    && after[UpdatedAt] == Str(now)
    && forall k :: k != IsActive && k != UpdatedAt ==> SameOn(before, after, k)
  }

  lemma ToggleMerge(before: Item, updates: Item, now: string, after: Item)
    requires IsReward(before)
    requires updates == map[IsActive := Bool(!before[IsActive].b)]
    requires Merged(before, updates, now, after)
    ensures Toggled(before, now, after)
  {
    MergedFrame(before, updates, now, after);
    assert MergedAt(before, updates, after, IsActive);
    assert SameOn(before, after, Name) && SameOn(before, after, Description);
    assert SameOn(before, after, TokenCost) && SameOn(before, after, TokenType) && SameOn(before, after, CreatedAt);
  }

  /** `toggleRewardActive`: flip a reward's `isActive`. */
  function ToggleRewardActive(env: Env, db: Db, id: string): (r: Attempt<Option<Item>>)
    ensures r.Thrown? ==> r.db.items == db.items
    ensures r.Done? ==> (r.value.Some? <==> id in db.items && IsReward(db.items[id]))
    ensures r.Done? && r.value.None? ==> r.db.items == db.items
    ensures r.Done? && r.value.Some? ==>
      && id in db.items && IsReward(db.items[id])
      && r.db.items == db.items[id := r.value.value]
      && Toggled(db.items[id], env.now, r.value.value)
    ensures env.failAt.None? ==> r.Done?
  {
    match GetById(env, db, id)
    case Thrown(db') => Thrown(db')
    case Done(found, db1) =>
      if found.None? || !IsReward(found.value) then Done(None, db1)
      else
        var updates := map[IsActive := Bool(!found.value[IsActive].b)];
        match Update(env, db1, id, updates)
        case Thrown(db') => Thrown(db')
        case Done(updated, db2) =>
          ToggleMerge(found.value, updates, env.now, updated);
          if !IsReward(updated) then Done(None, db2) else Done(Some(updated), db2)
  }

  // ---------------------------------------------------------------------
  // Transactions
  // ---------------------------------------------------------------------

  /** `tx` is the log entry of one `kind` event of `amount` against token
      `tokenId` (then named `tokenName`), written at `now`. */
  ghost predicate Logs(tx: Item, kind: Kind, tokenId: string, tokenName: string, amount: real, description: string, now: string) {
    && IsTransaction(tx)
    && tx[TransactionType] == Str(KindTag(kind))
    && tx[TokenId] == Str(tokenId)
    && tx[TokenName] == Str(tokenName)
    && tx[Amount] == Num(amount)
    && tx[Description] == Str(description)
    && tx[Timestamp] == Str(now)
  }

  /** `createTransaction`: append one log entry under a fresh id. */
  function CreateTransaction(env: Env, db: Db, kind: Kind, tokenId: string, tokenName: string, amount: real, description: string)
    : (r: Attempt<Item>)
    ensures r.Thrown? <==> Fails(env, db)
    ensures r.Thrown? ==> r.db.items == db.items
    ensures r.Done? ==>
      && r.db.items == db.items[NewTransactionId(env) := r.value]
      && Id in r.value && r.value[Id] == Str(NewTransactionId(env))
      && Logs(r.value, kind, tokenId, tokenName, amount, description, env.now)
  {
    var tx := map[Id := Str(NewTransactionId(env)), Type := Str(TransactionTag),
                  TransactionType := Str(KindTag(kind)), TokenId := Str(tokenId),
                  TokenName := Str(tokenName), Amount := Num(amount),
                  Description := Str(description), Timestamp := Str(env.now)];
    StampedTransaction(tx, kind, tokenId, tokenName, amount, description, env.now);
    match Create(env, db, tx)
    case Thrown(db') => Thrown(db')
    case Done(created, db') => if !IsTransaction(created) then Thrown(db') else Done(created, db')
  }

  // ---------------------------------------------------------------------
  // Properties relating several calls
  // ---------------------------------------------------------------------

  /** Two toggles in a row restore `isActive` and every field other than
      `updatedAt`. */
  lemma ToggledTwice(a: Item, now1: string, b: Item, now2: string, c: Item)
    requires IsReward(a) && Toggled(a, now1, b)
    requires IsReward(b) && Toggled(b, now2, c)
    ensures c[IsActive] == a[IsActive]
    ensures forall k :: k != UpdatedAt ==> SameOn(a, c, k)
  {
    forall k | k != UpdatedAt
      ensures SameOn(a, c, k)
    {
      if k != IsActive {
        assert SameOn(a, b, k) && SameOn(b, c, k);
      }
    }
  }

  /** Toggling a stored reward twice, with no store failure, restores
      `isActive` and every field other than `updatedAt`. */
  lemma ToggleTwice(env1: Env, env2: Env, db: Db, id: string)
    requires id in db.items && IsReward(db.items[id])
    requires env1.failAt.None? && env2.failAt.None?
    ensures
      var first := ToggleRewardActive(env1, db, id);
      var second := ToggleRewardActive(env2, first.db, id);
      && first.Done? && first.value.Some? && second.Done? && second.value.Some?
      && second.value.value[IsActive] == db.items[id][IsActive]
      && second.value.value[UpdatedAt] == Str(env2.now)
      && forall k :: k != UpdatedAt ==> SameOn(db.items[id], second.value.value, k)
  {
    var first := ToggleRewardActive(env1, db, id);
    assert first.Done? && first.value.Some?;
    var mid := first.value.value;
    assert first.db.items[id] == mid;
    var second := ToggleRewardActive(env2, first.db, id);
    assert second.Done? && second.value.Some?;
    ToggledTwice(db.items[id], env1.now, mid, env2.now, second.value.value);
  }

  /** A balance the clamp leaves non-negative stays non-negative, and a
      change that keeps the balance non-negative is applied exactly. */
  lemma ClampFacts(before: Item, amount: real, now: string, after: Item)
    requires IsToken(before) && Recounted(before, amount, now, after)
    ensures Balance(after) >= 0.0
    ensures Balance(before) + amount >= 0.0 ==> Balance(after) == Balance(before) + amount
    ensures Balance(before) + amount < 0.0 ==> Balance(after) == 0.0
  {
  }
}
