/** Datatypes shared by every component. */
module Common {

  /** A possibly null pointer, or a lookup that may find nothing. */
  datatype Option<+T> = None | Some(value: T)

  /** The range of uint64_t, size_t and pointers. */
  const TWO_TO_64: nat := 0x1_0000_0000_0000_0000

  /** Concatenation is associative. */
  lemma Associate<T>(xs: seq<T>, ys: seq<T>, zs: seq<T>)
    ensures xs + (ys + zs) == (xs + ys) + zs
  {
  }
}
