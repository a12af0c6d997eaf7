/** Small definitions that several models share. */
module Basics {

  datatype Option<+T> = None | Some(value: T)

  /** One if it holds, for counting how many of several things hold. */
  function Count(b: bool): nat { if b then 1 else 0 }

  /** Equal. It compares large values as wholes: what is in them does not matter. */
  predicate Same<T(==)>(a: T, b: T) { a == b }

  function Pow2(n: nat): nat { if n == 0 then 1 else 2 * Pow2(n - 1) }
}
