/** Python's `None`-or-value, used for the nullable columns of a mock row. */
module Wrappers {

  datatype Option<+T> = None | Some(value: T)

  /** Python truthiness of an optional string: `None` and `""` are falsy. */
  predicate Truthy(o: Option<string>) {
    o.Some? && |o.value| > 0
  }
}
