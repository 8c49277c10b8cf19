/** What several modules share. */
module Prelude {
  datatype Option<+T> = None | Some(value: T)

  function Min(a: nat, b: nat): nat { if a < b then a else b }

  lemma OneMoreTimes(n: nat, k: nat)
    ensures (n + 1) * k == n * k + k
  {
  }
}
