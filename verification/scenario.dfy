/** A worked session against an empty store: create a token, earn, create a
    reward for it, redeem it by spending, and try to overspend. Each step
    follows from the handlers' contracts. */
module Scenario {
  import opened Types
  import opened Database
  import opened Http
  import TokenController
  import RewardController

  function At(now: string, nonce: string): Env {
    Env(now, nonce, None, [])
  }

  const Stars: Body := map[Name := Str("Stars"), Color := Str("#3B82F6"), Icon := Str("⭐")]

  function Adjustment(amount: real, description: string): Body {
    map[Amount := Num(amount), Description := Str(description)]
  }

  /** A new token starts at 0; earning 5 gives 5 and logs one `earn` entry
      of 5 under the token's name. */
  lemma CreateThenEarn()
    ensures var created := TokenController.CreateToken(map[], At("t1", "a"), Stars);
      var earned := TokenController.EarnTokens(created.store, At("t2", "b"), "token_a", Adjustment(5.0, "Good day"));
      && created.reply.Ok? && Balance(created.reply.data.item) == 0.0
      && created.store == map["token_a" := created.reply.data.item]
      && earned.reply.Ok? && Balance(earned.reply.data.item) == 5.0
      && earned.store.Keys == {"token_a", "transaction_b"}
      && Logs(earned.store["transaction_b"], Earn, "token_a", "Stars", 5.0, "Good day", "t2")
  {
    assert NewTokenId(At("t1", "a")) == "token_a";
    assert NewTransactionId(At("t2", "b")) == "transaction_b";
    assert TokenController.ValidNewToken(Stars);
    var created := TokenController.CreateToken(map[], At("t1", "a"), Stars);
    assert created.reply.Ok?;
    assert HoldsToken(created.store, "token_a");
    var body := Adjustment(5.0, "Good day");
    assert TokenController.ValidAdjustment(body);
    var earned := TokenController.Adjust(created.store, At("t2", "b"), "token_a", body, Earn);
    assert earned.reply.Ok?;
  }

  /** For a stored token, a reward without a description cannot be created: the
      request answers 500 and leaves an incomplete reward record behind. The
      same reward with a description is created, active. */
  lemma CreateRewardForToken(store: Store)
    requires HoldsToken(store, "token_a")
    ensures var plain := map[Name := Str("Movie Night"), TokenCost := Num(5.0), TokenType := Str("token_a")];
      var described := plain[Description := Str("Pick any film")];
      var bare := RewardController.CreateReward(store, At("t3", "c"), plain);
      var full := RewardController.CreateReward(store, At("t3", "c"), described);
      && bare.reply == Fail(500, "Failed to create reward")
      && "reward_c" in bare.store && !IsReward(bare.store["reward_c"])
      && full.reply.Ok? && full.reply.data.item[IsActive] == Bool(true)
      && full.store == store["reward_c" := full.reply.data.item]
  {
    assert NewRewardId(At("t3", "c")) == "reward_c";
    var plain := map[Name := Str("Movie Night"), TokenCost := Num(5.0), TokenType := Str("token_a")];
    var described := plain[Description := Str("Pick any film")];
    assert RewardController.ValidReward(plain);
    assert RewardController.ValidReward(described);
  }

  /** Redeeming with 5 tokens leaves 0; spending 1 more is refused and
      changes nothing. */
  lemma RedeemThenOverspend(store: Store)
    requires HoldsToken(store, "token_a") && Balance(store["token_a"]) == 5.0
    ensures var redeemed := TokenController.SpendTokens(store, At("t4", "d"), "token_a", Adjustment(5.0, "Movie Night"));
      var again := TokenController.SpendTokens(redeemed.store, At("t5", "e"), "token_a", Adjustment(1.0, "More"));
      && redeemed.reply.Ok? && Balance(redeemed.reply.data.item) == 0.0
      && again.reply == Fail(400, "Insufficient tokens")
      && again.store == redeemed.store
  {
    var body := Adjustment(5.0, "Movie Night");
    assert TokenController.ValidAdjustment(body);
    var redeemed := TokenController.Adjust(store, At("t4", "d"), "token_a", body, Spend);
    assert redeemed.reply.Ok?;
    assert redeemed.store["token_a"] == redeemed.reply.data.item;
    assert HoldsToken(redeemed.store, "token_a");
    assert TokenController.ValidAdjustment(Adjustment(1.0, "More"));
  }

  /** Deleting a token that a reward refers to leaves the reward in place,
      now naming a token that no longer exists. */
  lemma DeleteReferencedToken(store: Store, rewardId: string)
    requires HoldsToken(store, "token_a") && HoldsReward(store, rewardId)
    requires store[rewardId][TokenType] == Str("token_a")
    ensures var r := TokenController.DeleteToken(store, At("t6", "f"), "token_a");
      && r.reply.Ok?
      && HoldsReward(r.store, rewardId) && r.store[rewardId] == store[rewardId]
      && !HoldsToken(r.store, r.store[rewardId][TokenType].s)
  {
    TokenController.DeleteTokenKeepsRewards(store, At("t6", "f"), "token_a");
  }
}
