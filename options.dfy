/** Small shared definitions: the optional value used for "no match" and "key missing", and Min. */
module Options {
  datatype Option<+T> = None | Some(value: T)

  function Min(a: int, b: int): int { if a < b then a else b }
}
