/** The two result shapes the whole project shares. */
module Wrappers {

  datatype Option<+T> = None | Some(value: T)

  datatype Result<+T, +E> = Ok(value: T) | Err(error: E)

  /** How much a read or a write offered `n` moves when there is something to move, at most `most`. */
  function SomeOf(n: nat, most: nat): (k: nat)
    requires most > 0
    ensures 1 <= k <= most
  {
    if n == 0 then 1 else if n <= most then n else most
  }
}
