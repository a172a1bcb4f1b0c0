/** The thirteen request handlers behind one dispatcher, grouped by route,
    and the facts that hold of every request: refusals change nothing, a server error needs a
    store failure (or a reward created without a description), the listing
    requests are read-only, and no token balance ever becomes negative. */
module Api {
  import opened Types
  import Database
  import opened Http
  import TokenController
  import RewardController
  import TransactionController

  /** A request under `/api/tokens`, named after the handler that serves it. */
  datatype TokenRequest =
    | GetAllTokens
    | CreateToken(body: Body)
    | UpdateToken(id: string, body: Body)
    | DeleteToken(id: string)
    | EarnTokens(id: string, body: Body)
    | SpendTokens(id: string, body: Body)

  /** A request under `/api/rewards`. */
  datatype RewardRequest =
    | GetAllRewards
    | CreateReward(body: Body)
    | UpdateReward(id: string, body: Body)
    | DeleteReward(id: string)
    | ToggleRewardActive(id: string)

  /** A request under `/api/transactions`. */
  datatype TransactionRequest =
    | GetAllTransactions
    | GetTransactionsByToken(tokenId: string)

  datatype Request =
    | Tokens(tokens: TokenRequest)
    | Rewards(rewards: RewardRequest)
    | Transactions(transactions: TransactionRequest)

  /** The requests that only read. */
  predicate IsListing(req: Request) {
    || req == Tokens(GetAllTokens) || req == Rewards(GetAllRewards)
    || req.Transactions?
  }

  function HandleTokens(store: Database.Store, env: Database.Env, req: TokenRequest): (r: Outcome)
    ensures r.reply.Fail? && r.reply.status != 500 ==> r.store == store
    ensures req.GetAllTokens? ==> r.store == store
    ensures r.reply.Fail? && r.reply.status == 500 ==> env.failAt.Some?
  {
    match req
    case GetAllTokens => TokenController.GetAllTokens(store, env)
    case CreateToken(body) => TokenController.CreateToken(store, env, body)
    case UpdateToken(id, body) => TokenController.UpdateToken(store, env, id, body)
    case DeleteToken(id) => TokenController.DeleteToken(store, env, id)
    case EarnTokens(id, body) => TokenController.EarnTokens(store, env, id, body)
    case SpendTokens(id, body) => TokenController.SpendTokens(store, env, id, body)
  }

  function HandleRewards(store: Database.Store, env: Database.Env, req: RewardRequest): (r: Outcome)
    ensures r.reply.Fail? && r.reply.status != 500 ==> r.store == store
    ensures req.GetAllRewards? ==> r.store == store
    ensures r.reply.Fail? && r.reply.status == 500 ==>
      env.failAt.Some? || (req.CreateReward? && Description !in req.body)
  {
    match req
    case GetAllRewards => RewardController.GetAllRewards(store, env)
    case CreateReward(body) => RewardController.CreateReward(store, env, body)
    case UpdateReward(id, body) => RewardController.UpdateReward(store, env, id, body)
    case DeleteReward(id) => RewardController.DeleteReward(store, env, id)
    case ToggleRewardActive(id) => RewardController.ToggleRewardActive(store, env, id)
  }

  function HandleTransactions(store: Database.Store, env: Database.Env, req: TransactionRequest): (r: Outcome)
    ensures r.store == store
    ensures r.reply.Fail? && r.reply.status == 500 ==> env.failAt.Some?
  {
    match req
    case GetAllTransactions => TransactionController.GetAllTransactions(store, env)
    case GetTransactionsByToken(tokenId) => TransactionController.GetTransactionsByToken(store, env, tokenId)
  }

  /** Every request: a refusal changes nothing, a listing changes nothing, and
      a server error needs a failing store call, except for a reward created
      without a description. */
  function Handle(store: Database.Store, env: Database.Env, req: Request): (r: Outcome)
    ensures r.reply.Fail? && r.reply.status != 500 ==> r.store == store
    ensures IsListing(req) ==> r.store == store
    ensures r.reply.Fail? && r.reply.status == 500 ==>
      env.failAt.Some? || (req.Rewards? && req.rewards.CreateReward? && Description !in req.rewards.body)
  {
    match req
    case Tokens(t) => HandleTokens(store, env, t)
    case Rewards(w) => HandleRewards(store, env, w)
    case Transactions(x) => HandleTransactions(store, env, x)
  }

  /** Every well-formed token of `store` has a balance of at least 0. */
  ghost predicate CountsNonNegative(store: Database.Store) {
    forall k :: k in store && IsToken(store[k]) ==> Balance(store[k]) >= 0.0
  }

  /** Writing an item that is a token with a non-negative balance, or not a
      token at all, keeps every balance non-negative. */
  lemma WriteKeepsCounts(store: Database.Store, k: string, v: Item)
    requires CountsNonNegative(store)
    requires IsToken(v) ==> Balance(v) >= 0.0
    ensures CountsNonNegative(store[k := v])
  {
  }

  /** The store an earn or spend leaves behind keeps balances non-negative,
      whether it succeeds or fails half way. */
  lemma AdjustKeepsCounts(store: Database.Store, env: Database.Env, id: string, body: Body, kind: Database.Kind)
    requires CountsNonNegative(store)
    ensures CountsNonNegative(TokenController.Adjust(store, env, id, body, kind).store)
  {
    var r := TokenController.Adjust(store, env, id, body, kind);
    if r.reply.Ok? {
      var tx := Database.NewTransactionId(env);
      var token := r.reply.data.item;
      Database.ClampFacts(store[id], Database.Delta(kind, TokenController.AmountOf(body)), env.now, token);
      WriteKeepsCounts(store, id, token);
      GuardsExclusive(r.store[tx]);
      WriteKeepsCounts(store[id := token], tx, r.store[tx]);
    } else if r.reply.status == 500 && r.store != store {
      Database.ClampFacts(store[id], Database.Delta(kind, TokenController.AmountOf(body)), env.now, r.store[id]);
      WriteKeepsCounts(store, id, r.store[id]);
    }
  }

  /** No token request makes a balance negative: creation starts at 0, earn
      and spend clamp at 0, and updateToken never writes `count`. */
  lemma TokenRequestsKeepCounts(store: Database.Store, env: Database.Env, req: TokenRequest)
    requires CountsNonNegative(store)
    ensures CountsNonNegative(HandleTokens(store, env, req).store)
  {
    var r := HandleTokens(store, env, req);
    match req
    case CreateToken(body) =>
      if r.reply.Ok? {
        WriteKeepsCounts(store, Database.NewTokenId(env), r.reply.data.item);
      }
    case UpdateToken(id, body) =>
      if r.reply.Ok? {
        assert SameOn(store[id], r.reply.data.item, Count);
        WriteKeepsCounts(store, id, r.reply.data.item);
      }
    case EarnTokens(id, body) =>
      AdjustKeepsCounts(store, env, id, body, Database.Earn);
    case SpendTokens(id, body) =>
      AdjustKeepsCounts(store, env, id, body, Database.Spend);
    case _ =>
  }

  /** Reward requests write only records that are not tokens. */
  lemma RewardRequestsKeepCounts(store: Database.Store, env: Database.Env, req: RewardRequest)
    requires CountsNonNegative(store)
    ensures CountsNonNegative(HandleRewards(store, env, req).store)
  {
    var r := HandleRewards(store, env, req);
    match req
    case CreateReward(body) =>
      var rid := Database.NewRewardId(env);
      if r.store != store {
        assert HasType(r.store[rid], RewardTag);
        WriteKeepsCounts(store, rid, r.store[rid]);
      }
    case UpdateReward(id, body) =>
      if r.reply.Ok? {
        GuardsExclusive(r.reply.data.item);
        WriteKeepsCounts(store, id, r.reply.data.item);
      }
    case ToggleRewardActive(id) =>
      if r.reply.Ok? {
        GuardsExclusive(r.reply.data.item);
        WriteKeepsCounts(store, id, r.reply.data.item);
      }
    case _ =>
  }

  /** No request makes a token balance negative. */
  lemma CountsStayNonNegative(store: Database.Store, env: Database.Env, req: Request)
    requires CountsNonNegative(store)
    ensures CountsNonNegative(Handle(store, env, req).store)
  {
    match req
    case Tokens(t) => TokenRequestsKeepCounts(store, env, t);
    case Rewards(w) => RewardRequestsKeepCounts(store, env, w);
    case Transactions(_) =>
  }

  /** Requests served one after another, each with its own environment. */
  function Run(store: Database.Store, steps: seq<(Database.Env, Request)>): Database.Store
    decreases |steps|
  {
    if |steps| == 0 then store
    else Run(Handle(store, steps[0].0, steps[0].1).store, steps[1..])
  }

  /** However many requests are served, and whichever of their store calls
      fail, no token balance becomes negative. */
  lemma {:induction false} RunKeepsCounts(store: Database.Store, steps: seq<(Database.Env, Request)>)
    requires CountsNonNegative(store)
    ensures CountsNonNegative(Run(store, steps))
    decreases |steps|
  {
    if |steps| > 0 {
      CountsStayNonNegative(store, steps[0].0, steps[0].1);
      RunKeepsCounts(Handle(store, steps[0].0, steps[0].1).store, steps[1..]);
    }
  }
}
