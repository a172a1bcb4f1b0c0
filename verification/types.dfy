/** Record shapes of the reward-jar store and the type guards that decide
    which stored items count as well-formed tokens, rewards and transactions
    (backend/src/types/index.ts). */
module Types {

  datatype Option<T> = None | Some(value: T)

  /** An attribute value as it is held by the store or arrives in a JSON body.
      A JavaScript number is modelled as an exact real, so that "is an
      integer" is a real question; `Null` stands for JSON null. */
  datatype Value = Str(s: string) | Num(n: real) | Bool(b: bool) | Null

  /** Attribute names. The code reads and writes a fixed set of names; any
      other key of a request body or stored item is `Other(name)`, and
      `Other` never carries one of the listed names, so each JSON key has
      exactly one representation. */
  datatype Field =
    | Id | Type | Name | Count | Color | Icon | CreatedAt | UpdatedAt
    | Description | TokenCost | TokenType | IsActive
    | TransactionType | TokenId | TokenName | Amount | Timestamp
    | Other(name: string)

  /** A stored item with dynamic fields: attribute name to value. A field
      that is absent is `undefined` in the source. */
  type Item = map<Field, Value>

  const TokenTag := "token"
  const RewardTag := "reward"
  const TransactionTag := "transaction"

  /** `typeof item[key] === 'string'` */
  predicate IsString(item: Item, key: Field) {
    key in item && item[key].Str?
  }

  /** `typeof item[key] === 'number'` */
  predicate IsNumber(item: Item, key: Field) {
    key in item && item[key].Num?
  }

  /** `typeof item[key] === 'boolean'` */
  predicate IsBoolean(item: Item, key: Field) {
    key in item && item[key].Bool?
  }

  /** `item.type === tag` */
  predicate HasType(item: Item, tag: string) {
    Type in item && item[Type] == Str(tag)
  }

  /** True iff `a` and `b` agree on field `key`, including on its absence. */
  predicate SameOn(a: Item, b: Item, key: Field) {
    (key in a <==> key in b) && (key in a ==> a[key] == b[key])
  }

  predicate IsToken(item: Item) {
    && HasType(item, TokenTag)
    && IsString(item, Name)
    && IsNumber(item, Count)
    && IsString(item, Color)
    && IsString(item, Icon)
    && IsString(item, CreatedAt)
    && IsString(item, UpdatedAt)
  }

  predicate IsReward(item: Item) {
    && HasType(item, RewardTag)
    && IsString(item, Name)
    && IsString(item, Description)
    && IsNumber(item, TokenCost)
    && IsString(item, TokenType)
    && IsBoolean(item, IsActive)
    && IsString(item, CreatedAt)
    && IsString(item, UpdatedAt)
  }

  predicate IsTransaction(item: Item) {
    && HasType(item, TransactionTag)
    && TransactionType in item
    && (item[TransactionType] == Str("earn") || item[TransactionType] == Str("spend"))
    && IsString(item, TokenId)
    && IsString(item, TokenName)
    && IsNumber(item, Amount)
    && IsString(item, Description)
    && IsString(item, Timestamp)
  }

  /** The balance of a token. */
  function Balance(item: Item): real
    requires IsNumber(item, Count)
  {
    item[Count].n
  }

  /** The three guards partition nothing twice: each demands its own tag. */
  lemma GuardsExclusive(item: Item)
    ensures !(IsToken(item) && IsReward(item))
    ensures !(IsToken(item) && IsTransaction(item))
    ensures !(IsReward(item) && IsTransaction(item))
  {
  }

  /** A record with the reward tag and every other reward field well typed is
      still rejected when its description is missing or not a string. */
  lemma RewardNeedsDescription(item: Item)
    requires !IsString(item, Description)
    ensures !IsReward(item)
  {
  }

  /** `Array.prototype.filter`: the elements that satisfy `keep`, in order. */
  function Filter(items: seq<Item>, keep: Item -> bool): (r: seq<Item>)
    ensures |r| <= |items|
    ensures forall i :: 0 <= i < |r| ==> keep(r[i])
    ensures forall x :: x in r <==> x in items && keep(x)
  {
    if |items| == 0 then []
    else
      var rest := Filter(items[1..], keep);
      assert forall x :: x in items <==> x == items[0] || x in items[1..];
      if keep(items[0]) then [items[0]] + rest else rest
  }

  /** `a` can be obtained from `b` by deleting elements. */
  predicate IsSubsequence(a: seq<Item>, b: seq<Item>)
    decreases |b|
  {
    if |a| == 0 then true
    else if |b| == 0 then false
    else if a[0] == b[0] then IsSubsequence(a[1..], b[1..])
    else IsSubsequence(a, b[1..])
  }

  /** Filtering keeps the survivors in their original relative order. */
  lemma {:induction false} FilterIsSubsequence(items: seq<Item>, keep: Item -> bool)
    ensures IsSubsequence(Filter(items, keep), items)
  {
    if |items| > 0 {
      FilterIsSubsequence(items[1..], keep);
      var rest := Filter(items[1..], keep);
      if keep(items[0]) {
        assert Filter(items, keep) == [items[0]] + rest;
        assert ([items[0]] + rest)[1..] == rest;
      } else {
        SubsequenceOfTail(rest, items);
      }
    }
  }

  /** A subsequence of the tail is a subsequence of the whole. */
  lemma {:induction false} SubsequenceOfTail(a: seq<Item>, b: seq<Item>)
    requires |b| > 0
    requires IsSubsequence(a, b[1..])
    ensures IsSubsequence(a, b)
    decreases |b|, 0
  {
    if |a| > 0 && a[0] == b[0] {
      SubsequenceDropHead(a, b[1..]);
    }
  }

  /** Dropping the first element of a subsequence keeps it a subsequence. */
  lemma {:induction false} SubsequenceDropHead(a: seq<Item>, b: seq<Item>)
    requires |a| > 0
    requires IsSubsequence(a, b)
    ensures IsSubsequence(a[1..], b)
    decreases |b|, 1
  {
    assert |b| > 0;
    if a[0] == b[0] {
      SubsequenceOfTail(a[1..], b);
    } else {
      SubsequenceDropHead(a, b[1..]);
      SubsequenceOfTail(a[1..], b);
    }
  }

  /** Filtering keeps every satisfying element exactly as often as it occurs
      and drops every other one. */
  lemma {:induction false} FilterMultiplicity(items: seq<Item>, keep: Item -> bool, x: Item)
    ensures multiset(Filter(items, keep))[x] == if keep(x) then multiset(items)[x] else 0
  {
    if |items| > 0 {
      FilterMultiplicity(items[1..], keep, x);
      assert items == [items[0]] + items[1..];
      assert multiset(items) == multiset([items[0]]) + multiset(items[1..]);
      var rest := Filter(items[1..], keep);
      if keep(items[0]) {
        assert multiset([items[0]] + rest) == multiset([items[0]]) + multiset(rest);
      }
    }
  }

  /** Filtering a second time removes nothing more. */
  lemma {:induction false} FilterIdempotent(items: seq<Item>, keep: Item -> bool)
    ensures Filter(Filter(items, keep), keep) == Filter(items, keep)
  {
    if |items| > 0 {
      FilterIdempotent(items[1..], keep);
      var rest := Filter(items[1..], keep);
      if keep(items[0]) {
        assert ([items[0]] + rest)[0] == items[0];
        assert ([items[0]] + rest)[1..] == rest;
      }
    }
  }

  /** Everything a filter promises about its output, for any guard. */
  lemma FilterSpec(items: seq<Item>, keep: Item -> bool)
    ensures IsSubsequence(Filter(items, keep), items)
    ensures forall x :: multiset(Filter(items, keep))[x] == if keep(x) then multiset(items)[x] else 0
    ensures Filter(Filter(items, keep), keep) == Filter(items, keep)
  {
    FilterIsSubsequence(items, keep);
    forall x ensures multiset(Filter(items, keep))[x] == if keep(x) then multiset(items)[x] else 0 {
      FilterMultiplicity(items, keep, x);
    }
    FilterIdempotent(items, keep);
  }

  function FilterTokens(items: seq<Item>): (r: seq<Item>)
    ensures |r| <= |items|
    ensures forall x :: x in r <==> x in items && IsToken(x)
  {
    Filter(items, IsToken)
  }

  function FilterRewards(items: seq<Item>): (r: seq<Item>)
    ensures |r| <= |items|
    ensures forall x :: x in r <==> x in items && IsReward(x)
  {
    Filter(items, IsReward)
  }

  function FilterTransactions(items: seq<Item>): (r: seq<Item>)
    ensures |r| <= |items|
    ensures forall x :: x in r <==> x in items && IsTransaction(x)
  {
    Filter(items, IsTransaction)
  }

  /** `filterTokens` returns exactly the well-formed tokens of its input, each
      as often as it occurs, in their original order; applying it twice is
      applying it once. */
  lemma FilterTokensExact(items: seq<Item>)
    ensures IsSubsequence(FilterTokens(items), items)
    ensures forall x :: multiset(FilterTokens(items))[x] == if IsToken(x) then multiset(items)[x] else 0
    ensures FilterTokens(FilterTokens(items)) == FilterTokens(items)
  {
    FilterSpec(items, IsToken);
  }

  lemma FilterRewardsExact(items: seq<Item>)
    ensures IsSubsequence(FilterRewards(items), items)
    ensures forall x :: multiset(FilterRewards(items))[x] == if IsReward(x) then multiset(items)[x] else 0
    ensures FilterRewards(FilterRewards(items)) == FilterRewards(items)
  {
    FilterSpec(items, IsReward);
  }

  lemma FilterTransactionsExact(items: seq<Item>)
    ensures IsSubsequence(FilterTransactions(items), items)
    ensures forall x :: multiset(FilterTransactions(items))[x] == if IsTransaction(x) then multiset(items)[x] else 0
    ensures FilterTransactions(FilterTransactions(items)) == FilterTransactions(items)
  {
    FilterSpec(items, IsTransaction);
  }
}
