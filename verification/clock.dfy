/** Wall-clock timestamps and the shared staleness window. Times are whole numbers here
    (seconds since the epoch in the system); `tolerance` is the process-wide window. */
module Clock {

  /** The distance of `x` from zero, as Python's `abs` on a number. */
  function Abs(x: int): (r: nat)
  {
    if x < 0 then -x else x
  }

  /** A point stamped `ts` is usable at `now`: it lies within the window, boundary included. */
  predicate Fresh(now: int, ts: int, tolerance: int)
  {
    Abs(now - ts) <= tolerance
  }
}
