/** What several components share. */
module Common {
  datatype Option<T> = None | Some(value: T)

  /** C integer division. */
  function TruncDiv(a: int, b: int): int
    requires b > 0
  {
    if a < 0 then -((-a) / b) else a / b
  }
}
