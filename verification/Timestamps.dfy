/** Blockchain timestamps (milliseconds since the first block) against wall-clock
    timestamps (nanoseconds since the epoch), in wrapping 64-bit arithmetic. */
module Timestamps {
  import opened Words

  /** Milliseconds from the epoch to the first block. */
  const NEMESIS_MILLISECONDS: int := 1459468800 * 1000
  const NANOS_PER_MILLISECOND: int := 1000000

  /** Division that truncates towards zero. */
  function Quotient(x: int, d: int): int
    requires d > 0
  {
    if x >= 0 then x / d else -((-x) / d)
  }

  /** The wall clock's nanosecond reading of a blockchain timestamp. */
  function ToTimestamp(t: int64): int64 {
    ToInt64(ToInt64(t + NEMESIS_MILLISECONDS) * NANOS_PER_MILLISECOND)
  }

  function ToBlockchainTimestamp(nanos: int64): int64 {
    ToInt64(Quotient(nanos, NANOS_PER_MILLISECOND) - NEMESIS_MILLISECONDS)
  }

  /** The largest number of milliseconds whose nanoseconds fit 64 bits. */
  const MAX_MILLISECONDS: int := 9223372036854

  predicate Representable(t: int64) {
    -MAX_MILLISECONDS <= t + NEMESIS_MILLISECONDS <= MAX_MILLISECONDS
  }

  /** The first block, and readings one nanosecond before and after it: part of a
      millisecond is dropped towards the epoch. */
  lemma FirstBlock()
    ensures ToTimestamp(0) == 1459468800000000000 && ToTimestamp(-1) == 1459468799999000000
    ensures ToBlockchainTimestamp(1459468800000000001) == 0
    ensures ToBlockchainTimestamp(1459468799999999999) == -1
    ensures ToBlockchainTimestamp(-1) == -1459468800000
  {
  }

  lemma QuotientOfMultiple(x: int)
    ensures Quotient(x * NANOS_PER_MILLISECOND, NANOS_PER_MILLISECOND) == x
  {
  }

  lemma QuotientBound(x: int64)
    ensures -MAX_MILLISECONDS <= Quotient(x, NANOS_PER_MILLISECOND) <= MAX_MILLISECONDS
  {
  }

  /** The round trip through the wall clock is the identity exactly when the offset
      milliseconds, taken as nanoseconds, fit 64 bits; every other value comes back wrong. */
  lemma TimestampRoundTrip(t: int64)
    ensures ToBlockchainTimestamp(ToTimestamp(t)) == t <==> Representable(t)
  {
    hide Quotient, ToTimestamp;
    if Representable(t) {
      ToTimestampExact(t);
      QuotientOfMultiple(t + NEMESIS_MILLISECONDS);
    } else {
      QuotientBound(ToTimestamp(t));
    }
  }

  lemma ToTimestampExact(t: int64)
    requires Representable(t)
    ensures ToTimestamp(t) == (t + NEMESIS_MILLISECONDS) * NANOS_PER_MILLISECOND
  {
  }

  /** A wall-clock reading comes back truncated to whole milliseconds, with no other
      condition: this is all that a deadline loses when it is sent. */
  lemma WallClockRoundTrip(nanos: int64)
    ensures ToTimestamp(ToBlockchainTimestamp(nanos)) == Quotient(nanos, NANOS_PER_MILLISECOND) * NANOS_PER_MILLISECOND
  {
    hide Quotient;
    QuotientBound(nanos);
  }
}
