/** Time. Instants are exact; only dates are cut to whole milliseconds. */
module Clock {
  import opened Bytes

  /** A point in time or a span of time, in milliseconds. */
  type Instant = t: real | 0.0 <= t

  /** A clock reading: one that a `u64` of milliseconds can count, with a millisecond to spare. */
  type Reading = t: real | 0.0 <= t < U64_MAX as real

  /** `now_unix_ms`: the date at a clock reading. */
  function Wall(t: Reading): (ms: U64)
    ensures ms as real <= t < ms as real + 1.0
  {
    t.Floor
  }

  function Earlier(a: real, b: real): real {
    if a <= b then a else b
  }

  function Later(a: real, b: real): real {
    if a <= b then b else a
  }
}
