/** What a controller hands back to Express: the store it leaves behind and
    the status with its JSON envelope; and the Joi rules the request schemas
    are built from, as plain predicates over a request body. */
module Http {
  import opened Types
  import opened Database

  /** A parsed JSON request body. */
  type Body = map<Field, Value>

  /** The `data` of a successful envelope. */
  datatype Payload = NoData | One(item: Item) | Many(items: seq<Item>)

  /** `{ success: true, data }` with its status, or `{ success: false, error }`. */
  datatype Reply = Ok(status: int, data: Payload) | Fail(status: int, error: string)

  /** The result of one request: the store afterwards and the reply. */
  datatype Outcome = Outcome(store: Store, reply: Reply)

  /** Stands for the first Joi detail message, whose text is Joi's own. */
  const ValidationError := "Validation error"

  /** A refusal answered from the state reached so far. */
  function Refuse(db: Db, status: int, error: string): Outcome {
    Outcome(db.items, Fail(status, error))
  }

  /** `Number.MAX_SAFE_INTEGER`: Joi refuses numbers beyond it unless told
      otherwise. */
  const MaxSafeInteger: real := 9007199254740991.0

  /** `Joi.string()`: a string, and by default not the empty one. */
  predicate JoiString(v: Value) {
    v.Str? && |v.s| > 0
  }

  /** `Joi.string()` with `.max(max)` (and possibly `.min(min)`). */
  predicate JoiText(v: Value, min: nat, max: nat) {
    JoiString(v) && min <= |v.s| <= max
  }

  /** `Joi.number()`: a number within the safe-integer range. */
  predicate JoiNumber(v: Value) {
    v.Num? && -MaxSafeInteger <= v.n <= MaxSafeInteger
  }

  /** `Joi.number().integer()` */
  predicate JoiInteger(v: Value) {
    JoiNumber(v) && v.n.Floor as real == v.n
  }

  /** `Joi.object({...})` refuses keys it does not list. */
  predicate OnlyKeys(body: Body, allowed: set<Field>) {
    body.Keys <= allowed
  }
}
