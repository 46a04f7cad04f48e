/** Optional values: `None` stands for Go's nil pointer, a missing map entry,
    a parse error or the zero `time.Time`, as each use site says. */
module Common {

  datatype Option<+T> = None | Some(value: T)

  function Min(a: int, b: int): int
  {
    if a <= b then a else b
  }
}
