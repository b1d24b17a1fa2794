/** What several components share. */
module Common {

  datatype Option<+T> = None | Some(value: T)

  /** The number of values of an unsigned 32-bit integer. */
  const U32: nat := 0x1_0000_0000

  /** The number of values of an unsigned 64-bit integer. */
  const U64: nat := 0x1_0000_0000_0000_0000

  /** A double, without rounding. */
  datatype Double = NaN | NegInf | Fin(v: real) | PosInf

  lemma Regroup<T>(a: seq<T>, b: seq<T>, c: seq<T>)
    ensures (a + b) + c == a + (b + c)
  {}
}
