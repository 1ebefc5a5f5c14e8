/** Small value types shared by the models. */
module Prelude {

  datatype Option<+T> = None | Some(value: T)

  /** An unsigned 8-bit value, for code that treats bytes as numbers. */
  type Byte = x: int | 0 <= x < 256

  const U32: nat := 0x1_0000_0000
  const U64: nat := 0x1_0000_0000_0000_0000

  predicate NoDup<T(==)>(s: seq<T>) {
    forall i, j :: 0 <= i < j < |s| ==> s[i] != s[j]
  }
}
