/** Numbers and instants. */
module Arith {
  // Nanoseconds since Go's zero time, so the zero value of time.Time is 0.
  type Time = int

  const ZERO_TIME: Time := 0

  function Max(a: int, b: int): int { if a < b then b else a }

  function Min(a: int, b: int): int { if a < b then a else b }
}
