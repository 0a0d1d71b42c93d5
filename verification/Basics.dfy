// Small definitions that several components share.

module Basics {

  datatype Option<T> = None | Some(value: T)

  function Min(a: nat, b: nat): nat {
    if a < b then a else b
  }

  function Max(a: nat, b: nat): nat {
    if a < b then b else a
  }

  function PowerOfTwo(k: nat): (n: nat)
    ensures n > 0
  {
    if k == 0 then 1 else 2 * PowerOfTwo(k - 1)
  }
}
