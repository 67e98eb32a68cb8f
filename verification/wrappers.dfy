/** Optional values and results shared by every module of the model.
    `None` stands for a JavaScript `undefined`/`null` or a Python `None`;
    `Failure` stands for a thrown exception whose payload the caller inspects. */
module Wrappers {

  datatype Option<+T> = None | Some(value: T) {

    /** The value, or `default` when absent (`x ?? default`). */
    function GetOr(default: T): T {
      match this
      case Some(v) => v
      case None => default
    }
  }

  datatype Result<+R, +E> = Success(value: R) | Failure(error: E)

  /** JavaScript truthiness of an optional string: `undefined` and `''` are falsy. */
  predicate Falsy(s: Option<string>) {
    s.None? || s.value == ""
  }

  /** `s || fallback` for an optional string. */
  function OrElse(s: Option<string>, fallback: string): (r: string)
    ensures Falsy(s) ==> r == fallback
    ensures !Falsy(s) ==> r == s.value
  {
    if Falsy(s) then fallback else s.value
  }

  /** `n || fallback` for an optional number: `undefined` and `0` are falsy. */
  function OrElseInt(n: Option<int>, fallback: int): (r: int)
    ensures (n.None? || n.value == 0) ==> r == fallback
    ensures n.Some? && n.value != 0 ==> r == n.value
  {
    if n.None? || n.value == 0 then fallback else n.value
  }
}
