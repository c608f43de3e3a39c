/** Values, statuses and responses shared by the request handlers.

    A request body is schema-less JSON, so every field a handler reads is a
    `JsValue`; a field the client did not send is `Undefined`. The handlers'
    presence checks are JavaScript truthiness tests, modelled by `Truthy`.
 */
module Http {

  /** A value the JSON body parser can produce for a field, or `Undefined`
      for an absent one. Numbers are reals (prices such as 12.5 occur); NaN
      and negative zero are not modelled. Arrays and objects are kept as
      values only: what the database makes of them in a query is not
      modelled. */
  datatype JsValue =
    | Undefined
    | Null
    | Bool(b: bool)
    | Num(x: real)
    | Str(s: string)
    | Arr(elems: seq<JsValue>)
    | Obj(entries: seq<(string, JsValue)>)

  /** JavaScript truthiness: `!v` is true exactly for the falsy values
      undefined, null, false, 0 and the empty string; every array and every
      object, even an empty one, is truthy. */
  predicate Truthy(v: JsValue)
  {
    match v
    case Undefined => false
    case Null => false
    case Bool(b) => b
    case Num(x) => x != 0.0
    case Str(s) => |s| > 0
    case Arr(_) => true
    case Obj(_) => true
  }

  /** An optional value, for lookups that may find nothing. */
  datatype Option<T> = None | Some(value: T)

  const StatusOk: int := 200
  const StatusCreated: int := 201
  const StatusBadRequest: int := 400
  const StatusServerError: int := 500

  /** The JSON payload of a response, by shape:
      `{message}`, `{error}`, `{message, product}` and a bare array. */
  datatype Body<T> =
    | Message(text: string)
    | Error(text: string)
    | Saved(message: string, record: T)
    | Listing(records: seq<T>)

  datatype Response<T> = Response(status: int, body: Body<T>)

  /** What a handler produces: the response sent and the collection as it
      stands afterwards. */
  datatype Handled<T> = Handled(response: Response<T>, store: seq<T>)

  /** The common shape of a failed request: the given status, and the
      collection exactly as it was. */
  predicate Rejected<T(==)>(h: Handled<T>, store: seq<T>, status: int)
  {
    h.response.status == status && h.store == store
  }
}
