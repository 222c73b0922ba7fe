/** Values shared by every module: optional values, identifiers, timestamps
    and JavaScript truthiness of the values the handlers test with `!x`. */
module Base {

  /** A value that may be absent (`undefined`/`null` in the source). */
  datatype Option<+T> = None | Some(value: T) {
    function GetOr(default: T): T {
      match this
      case Some(v) => v
      case None => default
    }
  }

  /** A document identifier (a Mongo ObjectId in its string form). */
  type Id = string

  /** A timestamp, in milliseconds as `Date.now()` returns it. */
  type Time = int

  /** `!!s` for a string: only the empty string is falsy. */
  predicate Truthy(s: string) {
    s != ""
  }

  /** `!!x` for an optional string: `undefined` and `""` are falsy. */
  predicate TruthyOpt(x: Option<string>) {
    x.Some? && x.value != ""
  }

  /** `!!n` for an optional number: `undefined` and `0` are falsy. */
  predicate TruthyNum(x: Option<int>) {
    x.Some? && x.value != 0
  }

  /** `opt || fallback` for an optional string. */
  function OrElse(x: Option<string>, fallback: string): (r: string)
    ensures TruthyOpt(x) ==> r == x.value
    ensures !TruthyOpt(x) ==> r == fallback
  {
    if TruthyOpt(x) then x.value else fallback
  }
}
