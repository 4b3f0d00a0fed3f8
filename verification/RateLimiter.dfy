/** The token-bucket limiter: one word of reserved bytes moved by
    compare-and-swap on a byte clock, and the loop a blocked request sleeps
    in. */
module RateLimiter {
  import opened Words
  import opened ByteClock

  datatype Priority = High | Low

  /** The longest a blocked request sleeps before it looks again. */
  const SLEEP_SLICE: int := 50_000_000

  /** Where a reservation of `bytes` at reading `clock` moves the word: a
      bucket idle long enough refilled, so the debt starts at the clock. */
  function Reserved(paid: U64, clock: U64, bytes: U64): U64 {
    SatAdd(Max(paid, clock), bytes)
  }

  // ------------------------------------------------------------ the wait

  /** What one turn of the wait loop sees: the shutdown flag, the time (absent
      on a platform with no clock) and the pace in force. */
  datatype Sight = Sight(stopped: bool, now: Option<U64>, pace: Pace) {
    predicate Served(ready: U64) {
      now.None? || pace.rate == 0 || pace.Clock(now.value) >= ready
    }

    predicate Ends(ready: U64) {
      stopped || Served(ready)
    }

    /** How long the turn sleeps when it does not end the wait. */
    function Nap(ready: U64): U64
      requires !Ends(ready)
    {
      Min(SLEEP_SLICE, Max(NanosFor(ready - pace.Clock(now.value), pace.rate), 1))
    }
  }

  /** A wait ends at a turn exactly when the limiter is stopped or turned off,
      there is no clock to wait on, or the clock has reached the target. */
  lemma WaitsEndExactlyWhen(sight: Sight, ready: U64)
    ensures sight.Ends(ready) <==>
      sight.stopped || sight.now.None? || sight.pace.rate == 0 || ready <= sight.pace.Clock(sight.now.value)
  {
  }

  /** A nap is at least a nanosecond and at most a slice, and it does not sleep
      past the target: at every moment before its end the clock reads no more
      than the target. */
  lemma NapsDoNotOversleep(sight: Sight, ready: U64, t: U64)
    requires !sight.Ends(ready) && sight.now.value <= t < sight.now.value + sight.Nap(ready)
    ensures 1 <= sight.Nap(ready) <= SLEEP_SLICE
    ensures sight.pace.Clock(t) <= ready
  {
    var p, start := sight.pace, sight.now.value;
    var from := Max(start, p.since);
    ReadBeforeThePace(p, start);
    ReadBeforeThePace(p, t);
    if from < t {
      ShortOfTheBytes(t - from, ready - p.Clock(start), p.rate);
      ClockStep(p, from, t);
    }
  }

  /** Fewer nanoseconds than `b` bytes take are not enough for them. */
  lemma ShortOfTheBytes(n: U64, b: U64, rate: U64)
    requires rate > 0 && n < NanosFor(b, rate)
    ensures n * rate <= b * NANOS_PER_SECOND
  {
    var q := b * NANOS_PER_SECOND / rate;
    DivisionBounds(b * NANOS_PER_SECOND, rate);
    ProductGrows(n, q, rate);
  }

  lemma ProductGrows(x: int, y: int, z: int)
    requires x <= y && 0 <= z
    ensures x * z <= y * z
  {
    assert (y - x) * z >= 0;
  }

  /** Once the time for the missing bytes, and one nanosecond, has passed, the
      clock has reached its target. */
  lemma ClockReaches(p: Pace, start: U64, t: U64, ready: U64)
    requires p.rate > 0 && p.since <= start && p.Clock(start) < ready
    requires start + NanosFor(ready - p.Clock(start), p.rate) + 1 <= t
    ensures ready <= p.Clock(t)
  {
    var b := ready - p.Clock(start);
    var n := NanosFor(b, p.rate) + 1;
    NanosAndBytesMeet(b, p.rate);
    FloorsAreSuperadditive(start - p.since, n, p.rate);
    ClockStep(p, start + n, t);
  }

  /** `n + 1` turns at one pace, none of them stopped, each at least as late as
      the turn before it plus its nap. */
  ghost predicate Turns(sights: nat -> Sight, p: Pace, ready: U64, n: nat) {
    && (forall k: nat | k <= n :: !sights(k).stopped && sights(k).now.Some? && sights(k).pace == p)
    && (forall k: nat | k < n && !sights(k).Ends(ready) ::
          sights(k).now.value + sights(k).Nap(ready) <= sights(k + 1).now.value)
  }

  /** At a positive rate the loop ends, and only once the clock has reached
      the target: time moves at least a nanosecond a turn. */
  lemma WaitLoopEnds(sights: nat -> Sight, p: Pace, ready: U64, n: nat)
    requires p.rate > 0 && Turns(sights, p, ready, n)
    requires Max(sights(0).now.value, p.since) + NanosFor(ready, p.rate) + 1 <= sights(0).now.value + n
    ensures exists k: nat :: k <= n && sights(k).Ends(ready) && ready <= p.Clock(sights(k).now.value)
  {
    EndsByDeadline(sights, p, ready, Max(sights(0).now.value, p.since) + NanosFor(ready, p.rate) + 1, 0, n);
  }

  lemma {:induction false} EndsByDeadline(sights: nat -> Sight, p: Pace, ready: U64, deadline: nat, k: nat, n: nat)
    requires p.rate > 0 && k <= n && Turns(sights, p, ready, n)
    requires deadline >= p.since + NanosFor(ready, p.rate) + 1
    requires deadline - sights(k).now.value <= n - k
    ensures exists j: nat :: k <= j <= n && sights(j).Ends(ready) && ready <= p.Clock(sights(j).now.value)
    decreases n - k
  {
    var now := sights(k).now.value;
    if sights(k).Ends(ready) {
      assert ready <= p.Clock(now);
    } else if deadline <= now {
      ClockReaches(p, p.since, now, ready) by {
        BytesForIsAFloor(0, p.rate);
        NanosForGrows(ready - p.at, ready, p.rate);
        ClockStep(p, p.since, now);
      }
      assert false;
    } else {
      assert now + sights(k).Nap(ready) <= sights(k + 1).now.value;
      EndsByDeadline(sights, p, ready, deadline, k + 1, n);
    }
  }

  lemma DivisionGrows(x: int, y: int, r: int)
    requires 0 <= x <= y && 0 < r
    ensures x / r <= y / r
  {
    DivisionBounds(x, r);
    DivisionBounds(y, r);
    if y / r < x / r {
      ProductBelow(y / r + 1, r, x / r, r);
      assert false;
    }
  }

  lemma NanosForGrows(a: U64, b: U64, rate: U64)
    requires a <= b
    ensures NanosFor(a, rate) <= NanosFor(b, rate)
  {
    DivisionGrows(Min(a * NANOS_PER_SECOND, U128_MAX), Min(b * NANOS_PER_SECOND, U128_MAX), Max(rate, 1));
  }

  /** And it wakes rarely: from a turn that owes `w` nanoseconds, at most
      `w / SLEEP_SLICE + 2` naps are taken, however the floors fall. */
  lemma WaitLoopWakesRarely(sights: nat -> Sight, p: Pace, ready: U64, n: nat)
    requires p.rate > 0 && Turns(sights, p, ready, n)
    requires p.since <= sights(0).now.value
    requires !sights(0).Ends(ready)
    requires NanosFor(ready - p.Clock(sights(0).now.value), p.rate) / SLEEP_SLICE + 2 <= n
    ensures exists k: nat ::
      && k <= NanosFor(ready - p.Clock(sights(0).now.value), p.rate) / SLEEP_SLICE + 2
      && sights(k).Ends(ready)
  {
    FullNaps(sights, p, ready, NanosFor(ready - p.Clock(sights(0).now.value), p.rate), 0, n);
  }

  lemma {:induction false} FullNaps(sights: nat -> Sight, p: Pace, ready: U64, owed: nat, k: nat, n: nat)
    requires p.rate > 0 && Turns(sights, p, ready, n)
    requires p.since <= sights(0).now.value && !sights(0).Ends(ready)
    requires owed == NanosFor(ready - p.Clock(sights(0).now.value), p.rate)
    requires k <= owed / SLEEP_SLICE && owed / SLEEP_SLICE + 2 <= n
    requires sights(0).now.value + k * SLEEP_SLICE <= sights(k).now.value
    ensures exists j: nat :: j <= owed / SLEEP_SLICE + 2 && sights(j).Ends(ready)
    decreases owed / SLEEP_SLICE - k
  {
    var start := sights(0).now.value;
    if !sights(k).Ends(ready) && !sights(k + 1).Ends(ready) {
      var now := sights(k).now.value;
      if sights(k).Nap(ready) < SLEEP_SLICE {
        // A nap cut to what was owed: one more nanosecond is enough.
        assert now + sights(k).Nap(ready) + 1 <= sights(k + 2).now.value;
        ClockReaches(p, now, sights(k + 2).now.value, ready);
        assert sights(k + 2).Ends(ready);
      } else if k == owed / SLEEP_SLICE {
        ClockReaches(p, start, sights(k + 1).now.value, ready);
        assert false;
      } else {
        FullNaps(sights, p, ready, owed, k + 1, n);
      }
    }
  }

  // --------------------------------------------------------- the limiter

  /** Why one weak compare-and-swap of the word failed: spuriously, or because
      another request had moved it to `paid`. */
  datatype Miss = Spurious | Moved(paid: U64)

  /** The word after the other requests behind `misses` have moved it. */
  function LastPaid(paid: U64, misses: seq<Miss>): U64 {
    if misses == [] then paid
    else
      var last := misses[|misses| - 1];
      if last.Moved? then last.paid else LastPaid(paid, misses[..|misses| - 1])
  }

  /** A rate change that lost its swap: the time it had read, and the pace the
      winner put in place. */
  datatype Lost = Lost(now: U64, winner: Pace)

  class TokenBucketRateLimiter {
    var pace: Pace
    const burst: U64
    var paid: U64
    var shutdown: bool
    var totalHigh: U64
    var totalLow: U64

    constructor (bytesPerSecond: U64, burstBytes: U64, now: Option<U64>)
      ensures pace == Pace(bytesPerSecond, 0, if now.Some? then now.value else 0)
      ensures burst == Max(burstBytes, 1) && paid == 0 && !shutdown
      ensures totalHigh == 0 && totalLow == 0
    {
      pace := Pace(bytesPerSecond, 0, if now.Some? then now.value else 0);
      burst := Max(burstBytes, 1);
      paid := 0;
      shutdown := false;
      totalHigh, totalLow := 0, 0;
    }

    method Stop()
      modifies this`shutdown
      ensures shutdown
    {
      shutdown := true;
    }

    /** Reserve with `misses` failed swaps before the one that lands: the
        reservation is taken on the word as the last of them left it. */
    method Reserve(bytes: U64, clock: U64, misses: seq<Miss>) returns (next: U64)
      modifies this`paid
      ensures next == paid == Reserved(LastPaid(old(paid), misses), clock, bytes)
    {
      var current := paid;
      var i := 0;
      next := Reserved(current, clock, bytes);
      while i < |misses|
        invariant 0 <= i <= |misses|
        invariant current == paid == LastPaid(old(paid), misses[..i])
        invariant next == Reserved(current, clock, bytes)
      {
        assert misses[..i + 1][..i] == misses[..i];
        if misses[i].Moved? {
          paid := misses[i].paid;
        }
        current := paid;
        next := Reserved(current, clock, bytes);
        i := i + 1;
      }
      assert misses[..i] == misses;
      paid := next;
    }

    /** The wait loop: it ends at the first turn that is stopped or served,
        after a nap for each turn before it, and reports a stop as not
        served. */
    method WaitUntil(ready: U64, sights: nat -> Sight, ghost end: nat)
      returns (served: bool, naps: seq<U64>)
      requires sights(end).Ends(ready)
      ensures |naps| <= end
      ensures var last := sights(|naps|);
        && served == !last.stopped
        && (served ==> last.now.None? || last.pace.rate == 0 || last.pace.Clock(last.now.value) >= ready)
      ensures forall k | 0 <= k < |naps| ::
        && !sights(k).stopped && sights(k).now.Some? && sights(k).pace.rate > 0
        && sights(k).pace.Clock(sights(k).now.value) < ready && naps[k] == sights(k).Nap(ready)
    {
      naps := [];
      while true
        invariant |naps| <= end
        invariant forall k | 0 <= k < |naps| ::
          && !sights(k).stopped && sights(k).now.Some? && sights(k).pace.rate > 0
          && sights(k).pace.Clock(sights(k).now.value) < ready && naps[k] == sights(k).Nap(ready)
        decreases end - |naps|
      {
        var sight := sights(|naps|);
        if sight.stopped {
          return false, naps;
        }
        if sight.now.None? {
          return true, naps;
        }
        var clock := sight.pace.Clock(sight.now.value);
        if sight.pace.rate == 0 || clock >= ready {
          return true, naps;
        }
        var owed := Max(NanosFor(ready - clock, sight.pace.rate), 1);
        naps := naps + [Min(SLEEP_SLICE, owed)];
      }
    }

    method Count(bytes: U64, pri: Priority)
      modifies this`totalHigh, this`totalLow
      ensures totalHigh == if pri.High? then WrapAdd(old(totalHigh), bytes) else old(totalHigh)
      ensures totalLow == if pri.Low? then WrapAdd(old(totalLow), bytes) else old(totalLow)
    {
      if pri.High? {
        totalHigh := WrapAdd(totalHigh, bytes);
      } else {
        totalLow := WrapAdd(totalLow, bytes);
      }
    }

    /** Change the rate, with `lost` swaps lost to other changes first. */
    method SetBytesPerSecond(rate: U64, now: U64, lost: seq<Lost>)
      modifies this`pace
      ensures pace == Repaced(if lost == [] then old(pace) else lost[|lost| - 1].winner, now, rate, paid)
    {
      var i := 0;
      while i < |lost|
        invariant 0 <= i <= |lost|
        invariant pace == if i == 0 then old(pace) else lost[i - 1].winner
      {
        var stale := Repaced(pace, lost[i].now, rate, paid);
        // The swap finds the winner's pace, and `stale` is dropped.
        pace := lost[i].winner;
        i := i + 1;
      }
      var at := pace.Clock(now);
      if pace.rate == 0 {
        at := Max(at, paid);
      }
      pace := Pace(rate, at, now);
    }

    /** One request, with `misses` failed swaps before the one that lands and
        the turns of its wait. It reserves exactly when the limiter is neither
        stopped nor off, there is a clock, and it is for some bytes; a Low one
        then waits for the clock to reach its reserved word less the burst, and
        ends at the first turn that finds it there, or the limiter stopped or
        off or without a clock. Its bytes are counted unless the limiter was
        stopped before it or before its wait ended. */
    method Request(bytes: U64, pri: Priority, now: Option<U64>, misses: seq<Miss>, sights: nat -> Sight, ghost end: nat)
      returns (turns: nat)
      requires !shutdown && now.Some? && pace.rate > 0 && bytes > 0 ==>
        sights(end).Ends(SatSub(Reserved(LastPaid(paid, misses), pace.Clock(now.value), bytes), burst))
      modifies this`paid, this`totalHigh, this`totalLow
      ensures paid == if !shutdown && now.Some? && pace.rate > 0 && bytes > 0
        then Min(Max(LastPaid(old(paid), misses), pace.Clock(now.value)) + bytes, U64_MAX) else old(paid)
      ensures !shutdown && now.Some? && pace.rate > 0 && bytes > 0 && pri.Low? ==>
        && (forall k: nat | k < turns ::
              && !sights(k).stopped && sights(k).now.Some? && sights(k).pace.rate > 0
              && sights(k).pace.Clock(sights(k).now.value) < Max(paid - burst, 0))
        && (|| sights(turns).stopped || sights(turns).now.None? || sights(turns).pace.rate == 0
            || sights(turns).pace.Clock(sights(turns).now.value) >= Max(paid - burst, 0))
      ensures var waits := now.Some? && pace.rate > 0 && bytes > 0 && pri.Low?;
        var counted := !shutdown && (waits ==> !sights(turns).stopped);
        && totalHigh == (if counted && pri.High? then WrapAdd(old(totalHigh), bytes) else old(totalHigh))
        && totalLow == (if counted && pri.Low? then WrapAdd(old(totalLow), bytes) else old(totalLow))
    {
      turns := 0;
      if shutdown {
        return;
      }
      if now.None? || !(pace.rate > 0 && bytes > 0) {
        Count(bytes, pri);
        return;
      }
      var reached := Reserve(bytes, pace.Clock(now.value), misses);
      if pri.High? {
        Count(bytes, pri);
      } else {
        var served, naps := WaitUntil(SatSub(reached, burst), sights, end);
        turns := |naps|;
        if served {
          Count(bytes, pri);
        }
      }
    }
  }
}
