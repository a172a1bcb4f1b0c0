/** The reward handlers (backend/src/controllers/rewardController.ts). */
module RewardController {
  import opened Types
  import opened Database
  import opened Http

  /** `createRewardSchema`, used by both createReward and updateReward. */
  predicate ValidReward(body: Body) {
    && OnlyKeys(body, {Name, Description, TokenCost, TokenType})
    && Name in body && JoiText(body[Name], 1, 100)
    && (Description in body ==> JoiText(body[Description], 0, 500))
    && TokenCost in body && JoiInteger(body[TokenCost]) && body[TokenCost].n >= 1.0
    && TokenType in body && JoiString(body[TokenType])
  }

  /** The optional description of a valid body. */
  function DescriptionIn(body: Body): Option<string>
    requires ValidReward(body)
  {
    if Description in body then Some(body[Description].s) else None
  }

  /** `getAllRewards`: the well-formed rewards among the reward-tagged items. */
  function GetAllRewards(store: Store, env: Env): (r: Outcome)
    ensures r.store == store
    ensures r.reply.Ok? <==> env.failAt != Some(0)
    ensures r.reply.Fail? ==> r.reply == Fail(500, "Failed to get rewards")
    ensures r.reply.Ok? ==>
      && r.reply.status == 200 && r.reply.data.Many?
      && forall i :: 0 <= i < |r.reply.data.items| ==>
           IsReward(r.reply.data.items[i]) && r.reply.data.items[i] in store.Values
    ensures r.reply.Ok? && Covers(env.order, store) ==>
      forall k :: HoldsReward(store, k) ==> store[k] in r.reply.data.items
    ensures r.reply.Ok? ==> ListsOnce(store, IsReward, r.reply.data.items, Covers(env.order, store))
  {
    match QueryByType(env, Db(store, 0), RewardTag)
    case Thrown(db) => Refuse(db, 500, "Failed to get rewards")
    case Done(items, db) =>
      FilterListsOnce(store, TypeIs(RewardTag), IsReward, items, Covers(env.order, store));
      Outcome(db.items, Ok(200, Many(FilterRewards(items))))
  }

  /** `createReward`: checks that `tokenType` names a token, then stores a
      fresh active reward. Without a description the record is written but
      fails the reward guard, so the request answers 500 and leaves that
      record behind. */
  function CreateReward(store: Store, env: Env, body: Body): (r: Outcome)
    ensures !ValidReward(body) ==> r.reply.Fail? && r.reply.status == 400 && r.store == store
    ensures ValidReward(body) && env.failAt != Some(0) && !HoldsToken(store, body[TokenType].s) ==>
      r.reply == Fail(400, "Invalid token type") && r.store == store
    ensures r.reply.Fail? && r.reply.status != 500 ==> r.store == store
    ensures r.reply.Fail? && r.reply.status == 500 ==>
      || r.store == store
      || (&& ValidReward(body) && Description !in body
          && NewRewardId(env) in r.store
          && HasType(r.store[NewRewardId(env)], RewardTag) && !IsReward(r.store[NewRewardId(env)])
          && r.store == store[NewRewardId(env) := r.store[NewRewardId(env)]])
    ensures r.reply.Ok? ==>
      && ValidReward(body) && HoldsToken(store, body[TokenType].s)
      && r.reply.status == 201 && r.reply.data.One?
      && IsReward(r.reply.data.item) && r.reply.data.item[IsActive] == Bool(true)
      && r.reply.data.item[Name] == body[Name]
      && Description in body && r.reply.data.item[Description] == body[Description]
      && r.reply.data.item[TokenCost] == body[TokenCost]
      && r.reply.data.item[TokenType] == body[TokenType]
      && r.store == store[NewRewardId(env) := r.reply.data.item]
    ensures ValidReward(body) && env.failAt.None? && HoldsToken(store, body[TokenType].s) ==>
      (r.reply.Ok? <==> Description in body)
    ensures (&& ValidReward(body) && Description !in body
             && env.failAt.None? && HoldsToken(store, body[TokenType].s)) ==>
      && r.reply == Fail(500, "Failed to create reward")
      && NewRewardId(env) in r.store && !IsReward(r.store[NewRewardId(env)])
    ensures r.reply.Fail? && r.reply.status == 500 ==> env.failAt.Some? || Description !in body
  {
    if !ValidReward(body) then Outcome(store, Fail(400, ValidationError))
    else
      match GetById(env, Db(store, 0), body[TokenType].s)
      case Thrown(db) => Refuse(db, 500, "Failed to create reward")
      case Done(found, db1) =>
        if found.None? || !IsToken(found.value) then Refuse(db1, 400, "Invalid token type")
        else
          match Database.CreateReward(env, db1, body[Name].s, DescriptionIn(body), body[TokenCost].n, body[TokenType].s)
          case Thrown(db) => Refuse(db, 500, "Failed to create reward")
          case Done(reward, db2) => Outcome(db2.items, Ok(201, One(reward)))
  }

  /** Merging a valid reward body into a reward leaves a reward carrying the
      body's name, cost and token type, the body's description if it has one
      and the old one otherwise, and every other field as it was. */
  lemma RewardBodyMerge(before: Item, body: Body, now: string, after: Item)
    requires IsReward(before) && ValidReward(body)
    requires Merged(before, body, now, after)
    ensures IsReward(after)
    ensures after[Name] == body[Name] && after[TokenCost] == body[TokenCost] && after[TokenType] == body[TokenType]
    ensures after[Description] == if Description in body then body[Description] else before[Description]
    ensures forall k :: k !in body && k != UpdatedAt ==> SameOn(before, after, k)
  {
    MergedFrame(before, body, now, after);
    assert IsActive !in body && CreatedAt !in body;
    assert SameOn(before, after, IsActive) && SameOn(before, after, CreatedAt);
    assert MergedAt(before, body, after, Name) && MergedAt(before, body, after, TokenCost);
    assert MergedAt(before, body, after, TokenType) && MergedAt(before, body, after, Description);
  }

  /** The write step of `updateReward`, once every check has passed. */
  function ApplyRewardUpdate(env: Env, db: Db, id: string, body: Body): (r: Outcome)
    requires HoldsReward(db.items, id) && ValidReward(body)
    ensures r.reply.Fail? ==> r.reply == Fail(500, "Failed to update reward") && r.store == db.items
    ensures r.reply.Fail? <==> Fails(env, db)
    ensures r.reply.Ok? ==>
      && r.reply.status == 200 && r.reply.data.One? && IsReward(r.reply.data.item)
      && r.store == db.items[id := r.reply.data.item]
      && Merged(db.items[id], body, env.now, r.reply.data.item)
  {
    match Update(env, db, id, body)
    case Thrown(db') => Refuse(db', 500, "Failed to update reward")
    case Done(updated, db') =>
      RewardBodyMerge(db.items[id], body, env.now, updated);
      Outcome(db'.items, Ok(200, One(updated)))
  }

  /** `updateReward`: merges the validated body into the reward; looks the
      token type up only when it differs from the stored one. */
  function UpdateReward(store: Store, env: Env, id: string, body: Body): (r: Outcome)
    ensures r.reply.Fail? ==> r.store == store
    ensures id != "" && !ValidReward(body) ==> r.reply.Fail? && r.reply.status == 400
    ensures id != "" && ValidReward(body) && env.failAt != Some(0) && !HoldsReward(store, id) ==>
      r.reply == Fail(404, "Reward not found")
    ensures (&& id != "" && ValidReward(body) && env.failAt.None? && HoldsReward(store, id)
             && body[TokenType] != store[id][TokenType] && !HoldsToken(store, body[TokenType].s)) ==>
      r.reply == Fail(400, "Invalid token type")
    ensures r.reply.Ok? ==>
      && ValidReward(body) && HoldsReward(store, id)
      && (body[TokenType] != store[id][TokenType] ==> HoldsToken(store, body[TokenType].s))
      && r.reply.status == 200 && r.reply.data.One? && IsReward(r.reply.data.item)
      && r.store == store[id := r.reply.data.item]
      && Merged(store[id], body, env.now, r.reply.data.item)
    ensures (&& id != "" && ValidReward(body) && env.failAt.None? && HoldsReward(store, id)
             && (body[TokenType] != store[id][TokenType] ==> HoldsToken(store, body[TokenType].s))) ==>
      r.reply.Ok?
    ensures r.reply.Fail? && r.reply.status == 500 ==> env.failAt.Some?
  {
    if id == "" then Outcome(store, Fail(400, "Reward ID is required"))
    else if !ValidReward(body) then Outcome(store, Fail(400, ValidationError))
    else
      match GetById(env, Db(store, 0), id)
      case Thrown(db) => Refuse(db, 500, "Failed to update reward")
      case Done(found, db1) =>
        if found.None? || !IsReward(found.value) then Refuse(db1, 404, "Reward not found")
        else if body[TokenType] != found.value[TokenType] then
          match GetById(env, db1, body[TokenType].s)
          case Thrown(db) => Refuse(db, 500, "Failed to update reward")
          case Done(token, db2) =>
            if token.None? || !IsToken(token.value) then Refuse(db2, 400, "Invalid token type")
            else ApplyRewardUpdate(env, db2, id, body)
        else ApplyRewardUpdate(env, db1, id, body)
  }

  /** A reward whose token type no longer names a token can still be updated,
      as long as the update keeps that token type. */
  lemma DanglingTokenTypeAccepted(store: Store, env: Env, id: string, body: Body)
    requires id != "" && ValidReward(body) && env.failAt.None? && HoldsReward(store, id)
    requires body[TokenType] == store[id][TokenType] && !HoldsToken(store, body[TokenType].s)
    ensures var r := UpdateReward(store, env, id, body);
      && r.reply.Ok? && r.reply.data.One?
      && r.reply.data.item[TokenType] == store[id][TokenType]
      && !HoldsToken(r.store, r.reply.data.item[TokenType].s)
  {
    var r := UpdateReward(store, env, id, body);
    var t := body[TokenType].s;
    RewardBodyMerge(store[id], body, env.now, r.reply.data.item);
    if t == id {
      assert r.store[t] == r.reply.data.item;
      GuardsExclusive(r.reply.data.item);
    } else {
      assert t in r.store <==> t in store;
      assert t in store ==> r.store[t] == store[t];
    }
  }

  /** Merging a valid reward body keeps the record's id, type and creation
      time, and stamps `updatedAt`. */
  lemma RewardMergeKeepsIdentity(before: Item, body: Body, now: string, after: Item)
    requires ValidReward(body) && Merged(before, body, now, after)
    ensures SameOn(before, after, Id) && SameOn(before, after, Type) && SameOn(before, after, CreatedAt)
    ensures after[UpdatedAt] == Str(now)
  {
    assert CreatedAt !in body;
    MergedFrame(before, body, now, after);
  }

  /** An update request never changes a reward's id, type or creation time. */
  lemma UpdateRewardKeepsIdentity(store: Store, env: Env, id: string, body: Body)
    ensures var r := UpdateReward(store, env, id, body);
      r.reply.Ok? ==>
        && SameOn(store[id], r.reply.data.item, Id)
        && SameOn(store[id], r.reply.data.item, Type)
        && SameOn(store[id], r.reply.data.item, CreatedAt)
        && r.reply.data.item[UpdatedAt] == Str(env.now)
  {
    var r := UpdateReward(store, env, id, body);
    if r.reply.Ok? {
      RewardMergeKeepsIdentity(store[id], body, env.now, r.reply.data.item);
    }
  }

  /** `deleteReward`: removes the reward record and nothing else. */
  function DeleteReward(store: Store, env: Env, id: string): (r: Outcome)
    ensures r.reply.Fail? ==> r.store == store
    ensures id != "" && env.failAt != Some(0) && !HoldsReward(store, id) ==> r.reply == Fail(404, "Reward not found")
    ensures r.reply.Ok? ==> HoldsReward(store, id) && r.store == store - {id} && r.reply == Ok(200, NoData)
    ensures id != "" && env.failAt.None? && HoldsReward(store, id) ==> r.reply.Ok?
    ensures r.reply.Fail? && r.reply.status == 500 ==> env.failAt.Some?
  {
    if id == "" then Outcome(store, Fail(400, "Reward ID is required"))
    else
      match GetById(env, Db(store, 0), id)
      case Thrown(db) => Refuse(db, 500, "Failed to delete reward")
      case Done(found, db1) =>
        if found.None? || !IsReward(found.value) then Refuse(db1, 404, "Reward not found")
        else
          match Delete(env, db1, id)
          case Thrown(db) => Refuse(db, 500, "Failed to delete reward")
          case Done(_, db2) => Outcome(db2.items, Ok(200, NoData))
  }

  /** `toggleRewardActive`: flips `isActive` of a stored reward. */
  function ToggleRewardActive(store: Store, env: Env, id: string): (r: Outcome)
    ensures r.reply.Fail? ==> r.store == store
    ensures id != "" && env.failAt != Some(0) && !HoldsReward(store, id) ==> r.reply == Fail(404, "Reward not found")
    ensures r.reply.Ok? ==>
      && HoldsReward(store, id)
      && r.reply.status == 200 && r.reply.data.One?
      && r.store == store[id := r.reply.data.item]
      && Toggled(store[id], env.now, r.reply.data.item)
    ensures id != "" && env.failAt.None? && HoldsReward(store, id) ==> r.reply.Ok?
    ensures r.reply.Fail? && r.reply.status == 500 ==> env.failAt.Some?
  {
    if id == "" then Outcome(store, Fail(400, "Reward ID is required"))
    else
      match GetById(env, Db(store, 0), id)
      case Thrown(db) => Refuse(db, 500, "Failed to toggle reward status")
      case Done(found, db1) =>
        if found.None? || !IsReward(found.value) then Refuse(db1, 404, "Reward not found")
        else
          match Database.ToggleRewardActive(env, db1, id)
          case Thrown(db) => Refuse(db, 500, "Failed to toggle reward status")
          case Done(None, db2) => Refuse(db2, 500, "Failed to toggle reward status")
          case Done(Some(updated), db2) => Outcome(db2.items, Ok(200, One(updated)))
  }

  /** Two successful toggle requests in a row give the reward back its
      `isActive` and every field other than `updatedAt`. */
  lemma ToggleRequestTwice(store: Store, env1: Env, env2: Env, id: string)
    requires id != "" && HoldsReward(store, id)
    requires env1.failAt.None? && env2.failAt.None?
    ensures var first := ToggleRewardActive(store, env1, id);
      var second := ToggleRewardActive(first.store, env2, id);
      && second.reply.Ok? && second.reply.data.One?
      && second.store[id][IsActive] == store[id][IsActive]
      && forall k :: k != UpdatedAt ==> SameOn(store[id], second.store[id], k)
  {
    var first := ToggleRewardActive(store, env1, id);
    var mid := first.reply.data.item;
    assert first.store[id] == mid;
    var second := ToggleRewardActive(first.store, env2, id);
    ToggledTwice(store[id], env1.now, mid, env2.now, second.reply.data.item);
  }
}
