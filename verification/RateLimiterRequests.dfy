/** Requests served one after another by a fresh limiter: its word is the word
    of the token bucket, every request of some bytes reserved in it. */
module RateLimiterRequests {
  import opened Words
  import opened ByteClock
  import opened RateLimiter
  import opened TokenBucket

  /** A request, the time it reads, and the turns of its wait, which ends by
      turn `end`. */
  datatype Asking = Asking(bytes: U64, pri: Priority, now: U64, sights: nat -> Sight, end: nat)

  /** One reservation for every request of some bytes, at what the clock read,
      while the limiter is on. */
  ghost function EventsOf(asks: seq<Asking>, pace: Pace): seq<Event> {
    if asks == [] then []
    else
      var last := asks[|asks| - 1];
      EventsOf(asks[..|asks| - 1], pace)
      + if pace.rate > 0 && last.bytes > 0 then [Event.Reserve(pace.Clock(last.now), last.bytes)] else []
  }

  ghost function BytesAsked(asks: seq<Asking>, pri: Priority): nat {
    if asks == [] then 0
    else
      var last := asks[|asks| - 1];
      BytesAsked(asks[..|asks| - 1], pri) + if last.pri == pri then last.bytes else 0
  }

  /** Each wait ends, and no turn finds the limiter stopped. */
  ghost predicate WaitsEnd(asks: seq<Asking>, pace: Pace, burst: U64) {
    forall k | 0 <= k < |asks| ::
      && (forall turn: nat :: !asks[k].sights(turn).stopped)
      && asks[k].sights(asks[k].end).Ends(SatSub(PaidAfter(EventsOf(asks[..k + 1], pace)), burst))
  }

  /** When the wait of request `k` is over, as the bucket sees it. */
  ghost predicate WaitOver(asks: seq<Asking>, pace: Pace, burst: U64, k: nat, turn: nat)
    requires k < |asks|
  {
    var sight := asks[k].sights(turn);
    || sight.now.None? || sight.pace.rate == 0
    || sight.pace.Clock(sight.now.value) >= SatSub(PaidAfter(EventsOf(asks[..k + 1], pace)), burst)
  }

  /** Request `k` waited until its wait was over, and no longer. */
  ghost predicate WaitedJustSo(asks: seq<Asking>, pace: Pace, burst: U64, k: nat, turns: nat)
    requires k < |asks|
  {
    pace.rate > 0 && asks[k].bytes > 0 && asks[k].pri.Low? ==>
      WaitOver(asks, pace, burst, k, turns) && forall turn: nat | turn < turns :: !WaitOver(asks, pace, burst, k, turn)
  }

  /** The limiter has served the first `k` requests. */
  ghost predicate Served(limiter: TokenBucketRateLimiter, asks: seq<Asking>, pace: Pace, burst: U64, k: nat)
    requires k <= |asks|
    reads limiter
  {
    && limiter.pace == pace && limiter.burst == burst && !limiter.shutdown
    && limiter.paid == PaidAfter(EventsOf(asks[..k], pace))
    && limiter.totalHigh == BytesAsked(asks[..k], High) % TWO_TO_64
    && limiter.totalLow == BytesAsked(asks[..k], Low) % TWO_TO_64
  }

  method RequestNext(limiter: TokenBucketRateLimiter, asks: seq<Asking>, ghost pace: Pace, ghost burst: U64, k: nat)
    returns (turns: nat)
    requires k < |asks| && WaitsEnd(asks, pace, burst) && Served(limiter, asks, pace, burst, k)
    modifies limiter
    ensures Served(limiter, asks, pace, burst, k + 1) && WaitedJustSo(asks, pace, burst, k, turns)
  {
    OneMore(asks, pace, k);
    CountedOne(asks, k, High);
    CountedOne(asks, k, Low);
    var ask := asks[k];
    turns := limiter.Request(ask.bytes, ask.pri, Some(ask.now), [], ask.sights, ask.end);
  }

  /** The word after the requests is the token bucket's for one reservation of
      each request of some bytes; every Low one waited, turn by turn, until the
      clock covered what was reserved up to it less the burst, and no longer;
      and every byte asked for was counted, in its class. */
  method RequestAll(rate: U64, burstBytes: U64, start: U64, asks: seq<Asking>)
    returns (paid: U64, totalHigh: U64, totalLow: U64, turns: seq<nat>)
    requires WaitsEnd(asks, Pace(rate, 0, start), Max(burstBytes, 1))
    ensures paid == PaidAfter(EventsOf(asks, Pace(rate, 0, start)))
    ensures totalHigh == BytesAsked(asks, High) % TWO_TO_64 && totalLow == BytesAsked(asks, Low) % TWO_TO_64
    ensures |turns| == |asks|
    ensures forall k | 0 <= k < |asks| :: WaitedJustSo(asks, Pace(rate, 0, start), Max(burstBytes, 1), k, turns[k])
  {
    ghost var pace, burst := Pace(rate, 0, start), Max(burstBytes, 1);
    var limiter := new TokenBucketRateLimiter(rate, burstBytes, Some(start));
    turns := [];
    for k := 0 to |asks|
      invariant Served(limiter, asks, pace, burst, k)
      invariant |turns| == k && forall i | 0 <= i < k :: WaitedJustSo(asks, pace, burst, i, turns[i])
    {
      var over := RequestNext(limiter, asks, pace, burst, k);
      turns := turns + [over];
    }
    assert asks[..|asks|] == asks;
    paid, totalHigh, totalLow := limiter.paid, limiter.totalHigh, limiter.totalLow;
  }

  lemma OneMore(asks: seq<Asking>, pace: Pace, k: nat)
    requires k < |asks|
    ensures PaidAfter(EventsOf(asks[..k + 1], pace)) ==
      if pace.rate > 0 && asks[k].bytes > 0
      then Reserved(PaidAfter(EventsOf(asks[..k], pace)), pace.Clock(asks[k].now), asks[k].bytes)
      else PaidAfter(EventsOf(asks[..k], pace))
  {
    var before := EventsOf(asks[..k], pace);
    assert asks[..k + 1][..k] == asks[..k];
    if pace.rate > 0 && asks[k].bytes > 0 {
      var after := before + [Event.Reserve(pace.Clock(asks[k].now), asks[k].bytes)];
      assert after[..|after| - 1] == before;
    } else {
      assert before + [] == before;
    }
  }

  lemma CountedOne(asks: seq<Asking>, k: nat, pri: Priority)
    requires k < |asks|
    ensures BytesAsked(asks[..k + 1], pri) == BytesAsked(asks[..k], pri) + if asks[k].pri == pri then asks[k].bytes else 0
    ensures var was := BytesAsked(asks[..k], pri);
      (was + asks[k].bytes) % TWO_TO_64 == WrapAdd(was % TWO_TO_64, asks[k].bytes)
  {
    assert asks[..k + 1][..k] == asks[..k];
    var was := BytesAsked(asks[..k], pri);
    WrappedAdd(was % TWO_TO_64, was, asks[k].bytes);
  }
}
