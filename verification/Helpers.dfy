/** Small notions several modules share. */
module Helpers {

  datatype Option<T> = None | Some(value: T)

  /** The lowest `n` bits. */
  function LowBits(n: nat): (m: set<nat>)
    ensures forall i: nat :: i in m <==> i < n
  {
    if n == 0 then {} else LowBits(n - 1) + {n - 1}
  }
}
