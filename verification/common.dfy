/** Value types shared by every part of the model: optional values (JavaScript's
    `null`/`undefined` against a present value), results that carry an error, and
    the JavaScript truthiness rules the source leans on (`x || 0`, `if (token)`). */
module Common {

  /** A value that may be absent (`null` or `undefined` in the source). */
  datatype Option<+T> = None | Some(value: T) {

    /** `x ?? d`: the value when present, otherwise the default. */
    function GetOr(default: T): T {
      match this
      case Some(v) => v
      case None => default
    }
  }

  /** The outcome of an operation whose failure the source throws. */
  datatype Result<+T, +E> = Ok(value: T) | Err(error: E)

  /** A JavaScript value as `===` sees it: `undefined`, `null`, or a string. */
  datatype JsValue = Undefined | Null | Str(s: string)

  /** The scheme prefix of a bearer `Authorization` header. */
  const BearerPrefix: string := "Bearer "

  /** JavaScript truthiness of an optional string: absent and `""` are falsy. */
  predicate Truthy(s: Option<string>) {
    s.Some? && s.value != ""
  }

  /** `x || 0` for an optional integer: absent and `0` both give `0`. */
  function OrZero(x: Option<int>): (r: int)
    ensures x.Some? ==> r == x.value
    ensures x.None? ==> r == 0
  {
    match x
    case Some(n) => if n != 0 then n else 0
    case None => 0
  }

  /** `x || false` for an optional flag. */
  function OrFalse(x: Option<bool>): (r: bool)
    ensures r <==> x == Some(true)
  {
    match x
    case Some(b) => b
    case None => false
  }
}
