/** What several modules share. */
module Basics {

  datatype Option<+T> = None | Some(value: T) {
    function GetOr(default: T): T {
      if Some? then value else default
    }
  }

  /** A byte held as a number. */
  type Octet = b: nat | b < 256

  function Min(a: int, b: int): int {
    if a < b then a else b
  }

  function Max(a: int, b: int): int {
    if a < b then b else a
  }

  lemma OddNumber(k: nat)
    ensures (2 * k + 1) % 2 == 1
  {
  }
}
