/** Small building blocks shared by the mood-journal model: an optional value,
    the timestamp type, and Python's truthiness test on an optional string. */
module Basics {

  datatype Option<+T> = None | Some(value: T)

  /** Timestamps (`datetime.now(timezone.utc)` in the service) are treated as
      opaque ordered values supplied by the caller. */
  type Timestamp = int

  /** `bool(x)` for a Python `Optional[str]`: `None` and `""` are both falsy. */
  predicate Given(b: Option<string>) {
    b.Some? && b.value != ""
  }

  /** `x or fallback` for a Python `Optional[str]`. */
  function OrElse(b: Option<string>, fallback: string): string
  {
    if Given(b) then b.value else fallback
  }
}
