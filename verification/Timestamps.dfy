/** Timestamps on their way through a Ruby Time, taken as an exact instant in nanoseconds. */
module Timestamps {
  import opened Values

  const NANOS_PER_SECOND: int := 1_000_000_000
  const I64_MIN: int := -0x8000_0000_0000_0000
  const I64_MAX: int := 0x7fff_ffff_ffff_ffff

  /** Counts per second of the sub-second units. */
  function PerSecond(unit: TimeUnit): int {
    match unit
    case Second => 1
    case Millisecond => 1000
    case Microsecond => 1_000_000
    case Nanosecond => 1_000_000_000
  }

  function NanosPer(unit: TimeUnit): int {
    match unit
    case Second => 1_000_000_000
    case Millisecond => 1_000_000
    case Microsecond => 1000
    case Nanosecond => 1
  }

  /** Rust's division and remainder truncate toward zero. */
  function TruncQuotient(a: int, unit: TimeUnit): int {
    if a < 0 then -(-a / PerSecond(unit)) else a / PerSecond(unit)
  }

  function TruncRemainder(a: int, unit: TimeUnit): int {
    a - TruncQuotient(a, unit) * PerSecond(unit)
  }

  /** Reading: `Time.at` of truncated seconds and a remainder that has the sign of the count. */
  function ToTime(count: i64, unit: TimeUnit): int {
    TruncQuotient(count, unit) * NANOS_PER_SECOND + TruncRemainder(count, unit) * NanosPer(unit)
  }

  /** `Time#to_i` floors, `Time#nsec` is never negative. */
  function ToI(time: int): int {
    time / NANOS_PER_SECOND
  }

  function Nsec(time: int): (n: int)
    ensures 0 <= n < NANOS_PER_SECOND
  {
    time % NANOS_PER_SECOND
  }

  function Wrap64(x: int): (y: int)
    ensures I64_MIN <= y <= I64_MAX
  {
    (x - I64_MIN) % 0x1_0000_0000_0000_0000 + I64_MIN
  }

  /** Writing, in the two's complement arithmetic of a release build. Seconds beyond 64 bits cannot be
      fetched from Ruby, which is an error. */
  function FromTime(time: int, unit: TimeUnit): Outcome<int> {
    if !(I64_MIN <= ToI(time) <= I64_MAX) then Err(ConversionError)
    else Ok(Wrap64(Wrap64(ToI(time) * PerSecond(unit)) + Nsec(time) / NanosPer(unit)))
  }

  /** The multiplication of a build with overflow checks stays in range. */
  predicate NoOverflow(time: int, unit: TimeUnit) {
    && I64_MIN <= ToI(time) * PerSecond(unit) <= I64_MAX
    && I64_MIN <= ToI(time) * PerSecond(unit) + Nsec(time) / NanosPer(unit) <= I64_MAX
  }

  lemma ToTimeExact(count: i64, unit: TimeUnit)
    ensures ToTime(count, unit) == count * NanosPer(unit)
  {
    match unit
    case Second =>
    case Millisecond =>
    case Microsecond =>
    case Nanosecond =>
  }

  lemma FloorParts(count: i64, unit: TimeUnit)
    ensures ToI(count * NanosPer(unit)) == count / PerSecond(unit)
    ensures Nsec(count * NanosPer(unit)) / NanosPer(unit) == count % PerSecond(unit)
  {
    match unit
    case Second =>
    case Millisecond =>
    case Microsecond =>
    case Nanosecond =>
  }

  lemma WrapShift(x: int, k: int)
    requires I64_MIN <= x <= I64_MAX
    ensures Wrap64(Wrap64(x - k) + k) == x
  {
  }

  /** Main result: for every 64-bit count, negative ones included, the truncating split on the way
      out and the flooring recombination on the way back are the identity. */
  lemma RoundTrip(count: i64, unit: TimeUnit)
    ensures FromTime(ToTime(count, unit), unit) == Ok(count)
  {
    ToTimeExact(count, unit);
    FloorParts(count, unit);
    var k := count % PerSecond(unit);
    assert (count / PerSecond(unit)) * PerSecond(unit) == count - k by { SplitCount(count, unit); }
    WrapShift(count, k);
  }

  lemma SplitCount(count: i64, unit: TimeUnit)
    ensures (count / PerSecond(unit)) * PerSecond(unit) == count - count % PerSecond(unit)
  {
    match unit
    case Second =>
    case Millisecond =>
    case Microsecond =>
    case Nanosecond =>
  }

  /** `count` is the last whole count at or before the instant. */
  predicate FloorOf(count: int, time: int, unit: TimeUnit) {
    count * NanosPer(unit) <= time < (count + 1) * NanosPer(unit)
  }

  /** Main result on writing: every instant, before the epoch or after, with any fraction of a second,
      is written as its floor exactly when the floor is a 64-bit count; an instant whose seconds are
      out of 64 bits is an error. */
  lemma WritesFloor(time: int, unit: TimeUnit)
    ensures FromTime(time, unit) == Err(ConversionError) <==>
            time < I64_MIN * NANOS_PER_SECOND || time >= (I64_MAX + 1) * NANOS_PER_SECOND
    ensures FromTime(time, unit) != Err(ConversionError) ==>
              FromTime(time, unit).Ok? && I64_MIN <= FromTime(time, unit).value <= I64_MAX
    ensures (exists count: i64 :: FloorOf(count, time, unit)) ==>
              FromTime(time, unit).Ok? && FloorOf(FromTime(time, unit).value, time, unit)
  {
    FloorCount(time, unit);
    var floor := ToI(time) * PerSecond(unit) + Nsec(time) / NanosPer(unit);
    if count: i64 :| FloorOf(count, time, unit) {
      FloorUnique(count, floor, time, unit);
      SecondsInRange(time, unit, floor);
      WrapSum(ToI(time) * PerSecond(unit), Nsec(time) / NanosPer(unit));
    }
  }

  lemma FloorCount(time: int, unit: TimeUnit)
    ensures FloorOf(ToI(time) * PerSecond(unit) + Nsec(time) / NanosPer(unit), time, unit)
  {
    match unit
    case Second =>
    case Millisecond =>
    case Microsecond =>
    case Nanosecond =>
  }

  lemma FloorUnique(a: int, b: int, time: int, unit: TimeUnit)
    requires FloorOf(a, time, unit) && FloorOf(b, time, unit)
    ensures a == b
  {
    match unit
    case Second =>
    case Millisecond =>
    case Microsecond =>
    case Nanosecond =>
  }

  lemma SecondsInRange(time: int, unit: TimeUnit, floor: int)
    requires FloorOf(floor, time, unit) && I64_MIN <= floor <= I64_MAX
    ensures I64_MIN <= ToI(time) <= I64_MAX
  {
    match unit
    case Second =>
    case Millisecond =>
    case Microsecond =>
    case Nanosecond =>
  }

  lemma WrapSum(a: int, b: int)
    requires I64_MIN <= a + b <= I64_MAX
    ensures Wrap64(Wrap64(a) + b) == a + b
  {
  }

  /** With overflow checks the trip succeeds exactly for the counts from the least whole second
      on: the earliest fraction of a second below it overflows when its seconds are scaled. */
  lemma OverflowIff(count: i64, unit: TimeUnit)
    ensures NoOverflow(ToTime(count, unit), unit) <==> count >= I64_MIN + (-I64_MIN) % PerSecond(unit)
  {
    ToTimeExact(count, unit);
    FloorParts(count, unit);
    SplitCount(count, unit);
    LeastSecond(count, unit);
  }

  lemma LeastSecond(count: i64, unit: TimeUnit)
    ensures count - count % PerSecond(unit) >= I64_MIN <==> count >= I64_MIN + (-I64_MIN) % PerSecond(unit)
  {
    var d := PerSecond(unit);
    assert d * (count / d) == count - count % d;
    LeastMultiple(count / d, count % d, -I64_MIN / d, (-I64_MIN) % d, d);
  }

  /** The multiples of d at or above -(m * d + r) are those from -m * d on. */
  lemma LeastMultiple(q: int, x: int, m: int, r: int, d: int)
    requires d > 0 && 0 <= x < d && 0 <= r < d
    ensures d * q >= -(d * m + r) <==> d * q + x >= -(d * m + r) + r
  {
    if q >= -m {
      NotBelow(q + m, d);
    } else {
      NotBelow(-q - m - 1, d);
    }
  }

  lemma NotBelow(k: int, d: int)
    requires k >= 0 && d > 0
    ensures d * k >= 0
  {
  }
}
