/** Times in nanoseconds, written to the second. */
module Seconds {
  const SECOND: int := 1000000000

  /** The last full second, before 1970 too. */
  function Floor(t: int): (s: int)
    ensures s <= t < s + 1000000000 && s % 1000000000 == 0
  {
    t / SECOND * SECOND
  }
}
