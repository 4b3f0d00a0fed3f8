/** The rate limiter's byte clock: how many bytes have been refilled since the
    limiter was made, each stretch of time counted at the rate set for it. */
module ByteClock {
  import opened Words

  const NANOS_PER_SECOND: int := 1_000_000_000

  /** Nanoseconds `bytes` take at `rate` bytes per second. */
  function NanosFor(bytes: U64, rate: U64): U64 {
    Min(Min(bytes * NANOS_PER_SECOND, U128_MAX) / Max(rate, 1), U64_MAX)
  }

  /** Bytes `nanos` buy at `rate` bytes per second. */
  function BytesFor(nanos: U64, rate: U64): U64 {
    assert nanos * rate >= 0;
    Min(Min(nanos * rate, U128_MAX) / NANOS_PER_SECOND, U64_MAX)
  }

  /** The pace the clock runs at, from `since` on. A rate of zero turns the
      limiter off. */
  datatype Pace = Pace(rate: U64, at: U64, since: U64) {
    function Clock(now: U64): U64 {
      SatAdd(at, BytesFor(SatSub(now, since), rate))
    }
  }

  /** What a rate change puts in place of `current`, given the time it read
      and the word of reserved bytes it saw. */
  function Repaced(current: Pace, now: U64, rate: U64, paid: U64): Pace {
    var at := current.Clock(now);
    Pace(rate, if current.rate == 0 then Max(at, paid) else at, now)
  }

  // ---------------------------------------------------------------- floors

  lemma ProductBelow(x: int, y: int, a: int, b: int)
    requires 0 <= x <= a && 0 <= y <= b
    ensures 0 <= x * y <= a * b
  {
    assert x * y <= a * y by { assert (a - x) * y >= 0; }
    assert a * y <= a * b by { assert a * (b - y) >= 0; }
  }

  /** The 128-bit product never saturates: what is left is the floor. */
  lemma BytesForIsAFloor(nanos: U64, rate: U64)
    ensures 0 <= nanos * rate < U128_MAX
    ensures BytesFor(nanos, rate) == Min(nanos * rate / NANOS_PER_SECOND, U64_MAX)
  {
    ProductBelow(nanos, rate, U64_MAX, U64_MAX);
  }

  /** Time and bytes convert into each other within one nanosecond: the time
      for `b` bytes never buys more than `b`, and one nanosecond more buys
      all of them. */
  lemma NanosAndBytesMeet(b: U64, rate: U64)
    requires rate > 0
    ensures BytesFor(NanosFor(b, rate), rate) <= b
    ensures NanosFor(b, rate) < U64_MAX ==> b <= BytesFor(NanosFor(b, rate) + 1, rate)
  {
    var n := NanosFor(b, rate);
    var q := b * NANOS_PER_SECOND / rate;
    assert q * rate <= b * NANOS_PER_SECOND < (q + 1) * rate by {
      DivisionBounds(b * NANOS_PER_SECOND, rate);
    }
    assert n * rate <= q * rate by { assert (q - n) * rate >= 0; }
    BytesForIsAFloor(n, rate);
    if n < U64_MAX {
      assert n == q;
      BytesForIsAFloor(n + 1, rate);
    }
  }

  lemma DivisionBounds(a: int, b: int)
    requires a >= 0 && b > 0
    ensures a / b * b <= a < (a / b + 1) * b
  {
    assert a == a / b * b + a % b;
  }

  /** Two stretches of time buy together at least what they buy apart. */
  lemma FloorsAreSuperadditive(m: U64, n: U64, rate: U64)
    requires m + n <= U64_MAX
    ensures Min(BytesFor(m, rate) + BytesFor(n, rate), U64_MAX) <= BytesFor(m + n, rate)
  {
    BytesForIsAFloor(m, rate);
    BytesForIsAFloor(n, rate);
    BytesForIsAFloor(m + n, rate);
    assert (m + n) * rate == m * rate + n * rate;
  }

  lemma FloorStep(x: int, y: int)
    requires 0 <= x <= y
    ensures x / NANOS_PER_SECOND <= y / NANOS_PER_SECOND
    ensures (y / NANOS_PER_SECOND - x / NANOS_PER_SECOND) * NANOS_PER_SECOND < y - x + NANOS_PER_SECOND
  {
  }

  lemma CappedStep(x: int, y: int, cap: int)
    requires x <= y
    ensures 0 <= Min(y, cap) - Min(x, cap) <= y - x
  {
  }

  lemma ScaledStep(m: int, n: int, rate: int)
    requires 0 <= m <= n && 0 <= rate
    ensures 0 <= m * rate <= n * rate
    ensures n * rate - m * rate == (n - m) * rate
  {
    ProductBelow(m, rate, n, rate);
  }

  lemma BytesStep(m: U64, n: U64, rate: U64)
    requires m <= n
    ensures BytesFor(m, rate) <= BytesFor(n, rate)
    ensures (BytesFor(n, rate) - BytesFor(m, rate)) * NANOS_PER_SECOND < (n - m) * rate + NANOS_PER_SECOND
  {
    BytesForIsAFloor(m, rate);
    BytesForIsAFloor(n, rate);
    ScaledStep(m, n, rate);
    FloorStep(m * rate, n * rate);
    CappedStep(m * rate / NANOS_PER_SECOND, n * rate / NANOS_PER_SECOND, U64_MAX);
  }

  /** One pace reads a later time no lower, and the reading grows by no more
      than the rate buys, rounded up. */
  lemma ClockStep(p: Pace, t: U64, u: U64)
    requires t <= u
    ensures p.Clock(t) <= p.Clock(u)
    ensures p.since <= t ==> (p.Clock(u) - p.Clock(t)) * NANOS_PER_SECOND < (u - t) * p.rate + NANOS_PER_SECOND
  {
    var m, n := SatSub(t, p.since), SatSub(u, p.since);
    BytesStep(m, n, p.rate);
    CappedStep(p.at + BytesFor(m, p.rate), p.at + BytesFor(n, p.rate), U64_MAX);
  }

  /** A time read before the pace began reads as its beginning. */
  lemma ReadBeforeThePace(p: Pace, t: U64)
    ensures p.Clock(t) == p.Clock(Max(t, p.since))
  {
  }

  // ------------------------------------------------------- rate changes

  /** One rate change: the time it read, the new rate, the reserved bytes it
      saw. */
  datatype Change = Change(now: U64, rate: U64, paid: U64)

  function Changed(p: Pace, c: Change): Pace {
    Repaced(p, c.now, c.rate, c.paid)
  }

  function After(p: Pace, changes: seq<Change>): Pace
    decreases |changes|
  {
    if changes == [] then p else After(Changed(p, changes[0]), changes[1..])
  }

  lemma {:induction false} AfterOneMore(p: Pace, changes: seq<Change>, c: Change)
    ensures After(p, changes + [c]) == Changed(After(p, changes), c)
    decreases |changes|
  {
    if changes == [] {
      assert ([] + [c])[1..] == [];
    } else {
      AfterOneMore(Changed(p, changes[0]), changes[1..], c);
      assert (changes + [c])[1..] == changes[1..] + [c];
    }
  }

  /** Every rate is positive and the changes read time in order. */
  predicate InOrder(p: Pace, changes: seq<Change>)
    decreases |changes|
  {
    && p.rate > 0
    && (changes != [] ==> p.since <= changes[0].now && InOrder(Changed(p, changes[0]), changes[1..]))
  }

  /** The exact refill between `p.since` and `now`, in bytes times
      nanoseconds per second: rate times elapsed time over every stretch. */
  function ExactRefill(p: Pace, changes: seq<Change>, now: U64): int
    decreases |changes|
  {
    if changes == [] then p.rate * (now - p.since)
    else p.rate * (changes[0].now - p.since) + ExactRefill(Changed(p, changes[0]), changes[1..], now)
  }

  /** The reading at time `t`, at whichever pace was in force then. */
  function ReadingAt(p: Pace, changes: seq<Change>, t: U64): U64
    decreases |changes|
  {
    if changes == [] || t < changes[0].now then p.Clock(t)
    else ReadingAt(Changed(p, changes[0]), changes[1..], t)
  }

  lemma OneStretch(p: Pace, now: U64)
    requires p.since <= now
    ensures p.Clock(now) * NANOS_PER_SECOND <= p.at * NANOS_PER_SECOND + p.rate * (now - p.since)
    ensures p.Clock(now) == U64_MAX
         || p.at * NANOS_PER_SECOND + p.rate * (now - p.since) < (p.Clock(now) + 1) * NANOS_PER_SECOND
  {
    BytesForIsAFloor(now - p.since, p.rate);
    assert (now - p.since) * p.rate == p.rate * (now - p.since);
  }

  /** After any number of rate changes the clock is never above the exact
      refill and, unless it has run into the end of the word, less than one
      byte per pace below it. */
  lemma {:induction false} ClockTracksExactRefill(p: Pace, changes: seq<Change>, now: U64)
    requires InOrder(p, changes)
    requires After(p, changes).since <= now
    ensures var c := After(p, changes).Clock(now);
            var exact := p.at * NANOS_PER_SECOND + ExactRefill(p, changes, now);
            && c * NANOS_PER_SECOND <= exact
            && (c == U64_MAX || exact < (c + |changes| + 1) * NANOS_PER_SECOND)
    decreases |changes|
  {
    if changes == [] {
      OneStretch(p, now);
    } else {
      OneStretch(p, changes[0].now);
      ClockTracksExactRefill(Changed(p, changes[0]), changes[1..], now);
      if Changed(p, changes[0]).at == U64_MAX {
        StuckAtTheEnd(Changed(p, changes[0]), changes[1..], now);
      }
    }
  }

  lemma {:induction false} StuckAtTheEnd(p: Pace, changes: seq<Change>, now: U64)
    requires p.at == U64_MAX
    ensures After(p, changes).Clock(now) == U64_MAX
    decreases |changes|
  {
    if changes != [] {
      StuckAtTheEnd(Changed(p, changes[0]), changes[1..], now);
    }
  }

  lemma {:induction false} ReadingsStartAt(p: Pace, changes: seq<Change>, t: U64)
    requires InOrder(p, changes) && p.since <= t
    ensures p.at <= ReadingAt(p, changes, t)
    decreases |changes|
  {
    if changes != [] && changes[0].now <= t {
      ReadingsStartAt(Changed(p, changes[0]), changes[1..], t);
    }
  }

  /** Across rate changes read in order the clock never runs backwards. */
  lemma {:induction false} ReadingsNeverFall(p: Pace, changes: seq<Change>, t: U64, u: U64)
    requires InOrder(p, changes) && p.since <= t <= u
    ensures ReadingAt(p, changes, t) <= ReadingAt(p, changes, u)
    decreases |changes|
  {
    if changes == [] || u < changes[0].now {
      ClockStep(p, t, u);
    } else if t < changes[0].now {
      ClockStep(p, t, changes[0].now);
      ReadingsStartAt(Changed(p, changes[0]), changes[1..], u);
    } else {
      ReadingsNeverFall(Changed(p, changes[0]), changes[1..], t, u);
    }
  }

  /** What an out-of-order read does: a change that read time `now` before
      the change it follows counts the stretch between the two reads again.
      The reading is left where it was exactly when that stretch buys no
      byte (or the clock is at the end of the word). */
  lemma RepacingKeepsTheReadingIff(p: Pace, now: U64, rate: U64, paid: U64)
    requires p.rate > 0
    ensures var t := Max(now, p.since);
            Repaced(p, now, rate, paid).Clock(t) == p.Clock(t)
            <==> now >= p.since || (p.since - now) * rate < NANOS_PER_SECOND || p.at == U64_MAX
  {
    BytesForIsAFloor(0, p.rate);
    BytesForIsAFloor(0, rate);
    if now < p.since {
      BytesForIsAFloor(p.since - now, rate);
    }
  }

  /** A thousand bytes out of nowhere: a change that read time 0 lands on a
      pace set at one second. */
  lemma AnOutOfOrderReadCountsTimeTwice()
    ensures var p := Pace(1, 1, NANOS_PER_SECOND);
            && p.Clock(NANOS_PER_SECOND) == 1
            && Repaced(p, 0, 1000, 0).Clock(NANOS_PER_SECOND) == 1001
  {
    var p := Pace(1, 1, NANOS_PER_SECOND);
    assert BytesFor(0, 1) == 0;
    assert p.Clock(0) == p.Clock(NANOS_PER_SECOND) == 1;
    assert Repaced(p, 0, 1000, 0) == Pace(1000, 1, 0);
    assert BytesFor(NANOS_PER_SECOND, 1000) == 1000;
  }
}
