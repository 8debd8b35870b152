/** Values every component shares: optional results, and instants in
    milliseconds as a JavaScript Date holds them. */
module Prelude {
  datatype Option<+T> = None | Some(value: T)

  datatype Result<+T, +E> = Ok(value: T) | Err(error: E)

  type Time = int

  const HOUR_MS: int := 60 * 60 * 1000
  const DAY_MS: int := 24 * HOUR_MS

  function Max(a: int, b: int): int {
    if a < b then b else a
  }

  lemma {:induction false} SubsetIsNoLarger<T>(some: set<T>, all: set<T>)
    requires some <= all
    ensures |some| <= |all|
  {
    assert all == some + (all - some);
  }
}
