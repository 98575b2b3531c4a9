// Result types that stand in for Go's (value, ok) and (value, error) returns,
// and the larger of two numbers.
module Wrappers {
  datatype Option<+T> = None | Some(value: T)

  datatype Result<+T> = Ok(value: T) | Err

  function Max(a: int, b: int): int { if a > b then a else b }
}
