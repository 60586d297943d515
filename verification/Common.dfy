/** Shared value types. */
module Common {
  datatype Option<+T> = None | Some(value: T)

  type Byte = x: int | 0 <= x < 256
  type Bytes = seq<Byte>

  function Min(a: nat, b: nat): (m: nat)
  {
    if a <= b then a else b
  }

  function Max(a: nat, b: nat): (m: nat)
  {
    if a <= b then b else a
  }
}
