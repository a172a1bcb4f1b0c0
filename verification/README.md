# Reward jar backend: a Dafny model

The reward-jar backend keeps three kinds of record in one DynamoDB table:
**tokens** (a named jar with a `count` balance), **rewards** (something that
costs `tokenCost` tokens of kind `tokenType`, switchable with `isActive`) and
**transactions** (an append-only log of `earn` and `spend` events). Express
controllers validate requests with Joi, call a small store service, and answer
with `{ success, data | error }` and a status.

This project models that core as pure functions over an immutable store:

- `types.dfy` (`Types`): the dynamic record shape (`Item = map<Field, Value>`),
  the three type guards and the three filters built on them.
- `database.dfy` (`Database`): the store (`map<string, Item>`) and the service
  calls `create`, `getById`, `update`, `delete`, `queryByType`,
  `queryByTokenId`, `createToken`, `updateTokenCount`, `createReward`,
  `toggleRewardActive` and `createTransaction`.
- `http.dfy` (`Http`): the reply envelope and the Joi rules the schemas use.
- `token_controller.dfy`, `reward_controller.dfy`,
  `transaction_controller.dfy`: each handler as a total function
  `(store, env, request) -> Outcome(store', reply)`.
- `api.dfy` (`Api`): the handlers behind one dispatcher, grouped by route, and
  facts about every request and every sequence of requests.
- `scenario.dfy` (`Scenario`): a worked session (create a token, earn,
  create a reward, redeem, overspend, delete a referenced token).

Everything a request takes from outside is the parameter `Env`: the one
timestamp it uses, the random suffix of the id it may generate, the order in
which the table's secondary indexes list items, and `failAt`, the index of the
store call (counting from 0 within the request) that throws. A thrown call
is caught by the handler's `try`/`catch` and answered with 500; whatever
earlier calls wrote stays written.

Behaviour of the code worth knowing:

- The earn/spend schema (`updateTokenSchema`) asks for an integer `amount`
  with no lower bound and a *required* description. So a negative "spend"
  raises the balance (`TokenController.NegativeSpendRaisesBalance`).
- `updateToken` validates its body with that same schema and merges `amount`
  and `description` into the token record. It never edits name, colour, icon
  or count.
- `createReward` with no `description` passes the schema, but the service's
  `isReward` check then fails. The request answers 500, and the record has
  already been written. `Scenario.CreateRewardForToken` shows this for a
  reward created without a description.
- `getTransactionsByToken` only checks the `type` tag of the token record,
  and `getAllTransactions` applies no shape filter at all.

## Model

| member | source | states |
|---|---|---|
| `Types.GuardsExclusive` | backend/src/types/index.ts:36-72 | No item satisfies two of `isToken`, `isReward`, `isTransaction`: each demands its own `type` tag. |
| `Types.RewardNeedsDescription` | backend/src/types/index.ts:48-59 | An item whose `description` is missing or not a string is not a reward, whatever its other fields. |
| `Types.Filter` | backend/src/types/index.ts:75-85 | The result is no longer than the input, every element satisfies the guard, and an item occurs in the result iff it occurs in the input and satisfies the guard. |
| `Types.FilterSpec` | backend/src/types/index.ts:75-85 | For any guard: the result is a subsequence of the input (relative order kept); each item occurs as often as in the input if it passes and not at all otherwise; filtering twice equals filtering once. |
| `Types.FilterTokens` | backend/src/types/index.ts:75-77 | The result is no longer than the input and holds exactly the input's well-formed tokens. |
| `Types.FilterRewards` | backend/src/types/index.ts:79-81 | The result is no longer than the input and holds exactly the input's well-formed rewards. |
| `Types.FilterTransactions` | backend/src/types/index.ts:83-85 | The result is no longer than the input and holds exactly the input's well-formed transactions. |
| `Types.FilterTokensExact` | backend/src/types/index.ts:75-77 | `filterTokens` returns a subsequence of its input with each token's multiplicity kept and every non-token dropped; it is idempotent. |
| `Types.FilterRewardsExact` | backend/src/types/index.ts:79-81 | The same for `filterRewards`. |
| `Types.FilterTransactionsExact` | backend/src/types/index.ts:83-85 | The same for `filterTransactions`. |
| `Database.Max0` | backend/src/services/database.ts:159 | `Math.max(0, x)` is at least 0 and at least `x`, and is one of the two. |
| `Database.Create` | backend/src/services/database.ts:18-34 | A put stores the item under its id with `createdAt == updatedAt == now`, every other field as given and no other key added; a throwing put changes nothing. |
| `Database.GetById` | backend/src/services/database.ts:36-45 | The lookup finds a record iff the id is stored, returns exactly that record and changes nothing. |
| `Database.Update` | backend/src/services/database.ts:47-82 | The stored record is replaced by the merge: every key of the update except `id` and `type` written, `updatedAt` set to now, every other field (present or absent) as before; no other record changes. |
| `Database.MergedFrame` | backend/src/services/database.ts:57-62 | After an update, `id`, `type` and every field the update does not name are as they were. |
| `Database.Delete` | backend/src/services/database.ts:84-93 | The id is removed and nothing else changes; the call reports success. |
| `Database.QueryByType` | backend/src/services/database.ts:95-111 | Every listed item is a stored item with the given tag, and the listing is the records under a duplicate-free list of stored keys, so each stored record appears at most once however the index walks; when the index visits every id, every stored item with the tag is listed, so each appears exactly once. Read-only. |
| `Database.QueryByTokenId` | backend/src/services/database.ts:113-129 | Every listed item is a stored item whose `tokenId` is the given id, each stored record at most once (the listing is the records under a duplicate-free list of stored keys); when the index visits every id, every such stored item is listed exactly once. Read-only. |
| `Database.FilterEnumerates` | backend/src/types/index.ts:75-85 | Filtering a listing of distinct stored keys leaves the records of the surviving keys, still each at most once, and drops no key whose record passes. |
| `Database.FilterListsOnce` | backend/src/controllers/tokenController.ts:29-30 | Filtering an index listing with a guard stricter than the index's (as `filterTokens` and `filterRewards` are) keeps every record at most once and keeps completeness. |
| `Database.CreateToken` | backend/src/services/database.ts:132-151 | The new record is a well-formed token with balance 0, the given name, colour and icon, stored under the fresh `token_` id. |
| `Database.UpdateTokenCount` | backend/src/services/database.ts:153-165 | Returns a token iff the id holds a well-formed token; then the balance becomes `max(0, count + amount)`, `updatedAt` now, all else kept. Returns nothing and changes nothing otherwise. |
| `Database.ClampFacts` | backend/src/services/database.ts:153-165 | After `updateTokenCount` the balance is at least 0; it is exactly `count + amount` when that is not negative, and 0 when it is. |
| `Database.CreateReward` | backend/src/services/database.ts:168-189 | Succeeds iff the put succeeds and a description is given; the result is an active, well-formed reward with the given fields under the fresh `reward_` id. Without a description the reward-tagged record is still written and is not a well-formed reward. |
| `Database.ToggleRewardActive` | backend/src/services/database.ts:191-202 | Returns a reward iff the id holds a well-formed reward; then `isActive` is negated, `updatedAt` is now and every other field is kept. Returns nothing and changes nothing otherwise. |
| `Database.ToggleTwice` | backend/src/services/database.ts:191-202 | Two toggles in a row restore `isActive` and every field but `updatedAt`. |
| `Database.CreateTransaction` | backend/src/services/database.ts:205-226 | The new record is a well-formed transaction of the given kind, token id, token name, amount and description, stamped now, under the fresh `transaction_` id; nothing else changes. |
| `TokenController.GetAllTokens` | backend/src/controllers/tokenController.ts:27-44 | Read-only; answers 200 with well-formed stored tokens, each stored token at most once (exactly once when the index visits every id), or 500 when the query throws. |
| `TokenController.RepeatedIdListedOnce` | backend/src/services/database.ts:95-111 | A token whose id the index reaches twice is still listed once by `getAllTokens`. |
| `TokenController.CreateToken` | backend/src/controllers/tokenController.ts:47-76 | A body failing `createTokenSchema` gets 400 and no change. Otherwise, unless the put throws, 201 with a zero-balance token carrying the body's name, colour and icon, and that token is the only change. |
| `TokenController.AdjustmentMerge` | backend/src/controllers/tokenController.ts:111-119 | Merging an `updateTokenSchema` body into a token keeps it a token; `amount` and `description` are written, and name, colour, icon, count and every other field are untouched. |
| `TokenController.UpdateToken` | backend/src/controllers/tokenController.ts:79-135 | A refusal changes nothing; a missing id gets 400 "Token ID is required", a body failing `updateTokenSchema` gets 400, and a missing token gets 404. On success the stored token is replaced by one with the body's `amount` and `description` added and nothing else changed but `updatedAt`. With no store failure, a valid body on a stored token always succeeds. |
| `TokenController.DeleteToken` | backend/src/controllers/tokenController.ts:138-174 | A missing token gets 404 and no change; success removes exactly that id. |
| `TokenController.DeleteTokenKeepsRewards` | backend/src/controllers/tokenController.ts:150-160 | Every other record, including each reward whose `tokenType` names the token, is left unchanged: no cascade. |
| `TokenController.Adjust` | backend/src/controllers/tokenController.ts:177-325 | Invalid body: 400, no change. Missing token: 404, no change. On success the balance moves by the signed amount (clamped at 0) and exactly one log entry is added, with the kind, token id, pre-mutation name, amount and description. A 500 leaves at most the balance update, never a log entry. |
| `TokenController.EarnTokens` | backend/src/controllers/tokenController.ts:177-245 | On success the balance is `max(0, count + amount)`; a valid request on a stored token without store failure succeeds. |
| `TokenController.SpendTokens` | backend/src/controllers/tokenController.ts:248-325 | A balance below the amount gets 400 "Insufficient tokens" and no change. On success the balance is exactly `count - amount`: the check makes the clamp a no-op. |
| `TokenController.NegativeSpendRaisesBalance` | backend/src/controllers/tokenController.ts:20-23 | The amount has no lower bound, so spending a negative amount succeeds and raises the balance. |
| `TokenController.AdjustLogsOnce` | backend/src/controllers/tokenController.ts:222-229 | With a fresh transaction id, a successful earn or spend adds exactly one transaction-tagged record; a failed one adds none. |
| `RewardController.GetAllRewards` | backend/src/controllers/rewardController.ts:24-41 | Read-only; answers 200 with well-formed stored rewards, each stored reward at most once (exactly once when the index visits every id), or 500 when the query throws. |
| `RewardController.CreateReward` | backend/src/controllers/rewardController.ts:44-85 | Invalid body: 400, no change. A `tokenType` that is not a stored token: 400 "Invalid token type", no change. Success: 201 with an active reward carrying the body's fields, the only change. With no store failure and a description missing, the answer is 500 and an incomplete reward record is left behind. |
| `RewardController.RewardBodyMerge` | backend/src/controllers/rewardController.ts:134 | Merging a valid reward body into a reward keeps it a reward. Name, cost and token type come from the body; the description comes from the body if given, else it is kept; every other field is untouched. |
| `RewardController.ApplyRewardUpdate` | backend/src/controllers/rewardController.ts:134-149 | The update step answers 200 with the merged, still well-formed reward, or 500 with no change when the store call throws. |
| `RewardController.UpdateReward` | backend/src/controllers/rewardController.ts:88-158 | Every refusal changes nothing. A non-reward gets 404. A changed `tokenType` that is not a stored token gets 400. Success replaces the reward by its merge with the body. A new `tokenType` is looked up only when it differs from the stored one. |
| `RewardController.DanglingTokenTypeAccepted` | backend/src/controllers/rewardController.ts:121-132 | An update that keeps a `tokenType` naming no token still succeeds, and the reward keeps pointing at nothing. |
| `RewardController.RewardMergeKeepsIdentity` | backend/src/services/database.ts:57-68 | Merging a valid reward body keeps `id`, `type` and `createdAt` and stamps `updatedAt`. |
| `RewardController.UpdateRewardKeepsIdentity` | backend/src/controllers/rewardController.ts:134 | A successful reward update never changes `id`, `type` or `createdAt`, and stamps `updatedAt`. |
| `RewardController.DeleteReward` | backend/src/controllers/rewardController.ts:161-197 | A non-reward gets 404 and no change; success removes exactly that id. |
| `RewardController.ToggleRewardActive` | backend/src/controllers/rewardController.ts:200-246 | A non-reward gets 404; any failure changes nothing. Success replaces the reward by one whose `isActive` is negated, all else kept but `updatedAt`. |
| `RewardController.ToggleRequestTwice` | backend/src/controllers/rewardController.ts:200-246 | Two successful toggle requests restore `isActive` and every field but `updatedAt`. |
| `TransactionController.GetAllTransactions` | backend/src/controllers/transactionController.ts:8-24 | Read-only; answers 200 with stored transaction-tagged items, each at most once (exactly once when the index visits every id), with no shape filter, or 500 when the query throws. |
| `TransactionController.MalformedTransactionListed` | backend/src/controllers/transactionController.ts:10-15 | A record carrying only the transaction tag is listed although it is not a well-formed transaction. |
| `TransactionController.GetTransactionsByToken` | backend/src/controllers/transactionController.ts:27-56 | Read-only. An id without the token tag gets 404. Success lists stored items whose `tokenId` is the id, each at most once, and exactly the records whose `tokenId` is the id when the index visits every id. |
| `TransactionController.TagOnlyTokenCheck` | backend/src/controllers/transactionController.ts:32-40 | A record with the token tag and no other token field passes the existence check. |
| `Api.HandleTokens` | backend/src/routes/tokenRoutes.ts:6-22 | For every token request: a 4xx changes nothing, listing is read-only, and a 500 needs a failing store call. |
| `Api.HandleRewards` | backend/src/routes/rewardRoutes.ts:6-19 | The same for reward requests, except that `createReward` without a description answers 500 with no store failure. |
| `Api.HandleTransactions` | backend/src/routes/transactionRoutes.ts:6-10 | Transaction requests never change the store; a 500 needs a failing store call. |
| `Api.Handle` | backend/src/routes/index.ts:17-20 | For every request: a 4xx changes nothing, the four listings are read-only, and a 500 needs a failing store call or a reward created without a description. |
| `Api.AdjustKeepsCounts` | backend/src/controllers/tokenController.ts:209-229 | An earn or spend, finished or cut short by a failure, leaves every token balance non-negative if it was. |
| `Api.TokenRequestsKeepCounts` | backend/src/controllers/tokenController.ts:47-325 | No token request makes a balance negative. |
| `Api.RewardRequestsKeepCounts` | backend/src/controllers/rewardController.ts:44-246 | No reward request makes a balance negative: they write only records that are not tokens. |
| `Api.CountsStayNonNegative` | backend/src/services/database.ts:159 | No request makes a token balance negative. |
| `Api.RunKeepsCounts` | backend/src/services/database.ts:159 | However many requests are served, whichever store calls fail, balances stay non-negative. |
| `Scenario.CreateThenEarn` | backend/src/controllers/tokenController.ts:177-245 | A new token has balance 0; earning 5 gives 5 and writes one `earn` entry of 5 naming the token. |
| `Scenario.CreateRewardForToken` | backend/src/controllers/rewardController.ts:44-85 | A reward without description gets 500 and leaves an incomplete record; with a description it is created active. |
| `Scenario.RedeemThenOverspend` | backend/src/controllers/tokenController.ts:248-325 | Spending 5 of 5 leaves 0; spending 1 more gets 400 "Insufficient tokens" and changes nothing. |
| `Scenario.DeleteReferencedToken` | backend/src/controllers/tokenController.ts:138-174 | Deleting a token a reward refers to leaves the reward unchanged, naming a token that no longer exists. |

## Left out

- Express wiring: routing, helmet, CORS, rate limiting, the 404/500 middleware, the Lambda handler and the local server. The route table binds `addTokens` for `POST /:id/add`, a method the controller does not have; the model serves `earnTokens` directly.
- DynamoDB client details: update-expression strings, table and index names, pagination of queries, and the store's own errors. The model keeps the store's refusal of an empty key out: an empty id is a plain missing key. An update naming `updatedAt` would make DynamoDB reject overlapping paths; no schema lets such a key through, so it is not modelled.
- `Database.Update` requires the id to be stored: every caller reads the record first, and the upsert of a missing key is not modelled.
- Id generation and clocks: `Date.now()`, `Math.random()` and `new Date().toISOString()` are the `nonce` and `now` of `Env`. One timestamp serves a whole request. Freshness of generated ids is a hypothesis where a lemma needs it.
- Joi internals: type conversion of string numbers, Joi's error texts (all "Validation error" here), and string lengths in UTF-16 code units (here, characters).
- Floating point: numbers are exact reals; NaN, infinities and rounding are not modelled.
- Concurrency: requests run one at a time, so the read-check-write race between two spends is not modelled.
- The success `message` strings of the replies are not modelled; the error strings are.
- The front end and its client-side checks (redeeming only active, affordable rewards) are UI code and are not part of this model.
- `Database.CreateReward`: assumes the document client drops the `undefined` description and the put succeeds, so the incomplete record is stored.
- `Database.QueryByType`, `Database.QueryByTokenId`: completeness is stated only when the index order visits every stored id (`Covers`), since the index order is part of `Env`.
