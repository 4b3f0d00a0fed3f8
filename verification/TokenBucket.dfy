/** A plain token bucket, and the proof that the limiter's single word of
    reserved bytes is one. */
module TokenBucket {
  import opened Words
  import opened RateLimiter

  /** What happens to the limiter, in order, with the byte clock's reading: a
      reservation, or the limiter being turned back on from a rate of zero,
      which moves the clock up to everything reserved. */
  datatype Event = Reserve(reading: U64, bytes: U64) | TurnOn(reading: U64)

  // ------------------------------------------------------- the reference

  /** The bucket: its balance at reading `asOf`. It holds at most `burst`
      and may go into debt. */
  datatype Bucket = Bucket(balance: int, asOf: int) {
    function Refilled(burst: U64, reading: int): int {
      Min(burst, balance + (reading - asOf))
    }

    function Take(burst: U64, reading: int, bytes: int): Bucket {
      Bucket(Refilled(burst, reading) - bytes, reading)
    }
  }

  function BucketAfter(burst: U64, events: seq<Event>): Bucket {
    if events == [] then Bucket(burst, 0)
    else
      var b := BucketAfter(burst, events[..|events| - 1]);
      match events[|events| - 1]
      case Reserve(reading, bytes) => b.Take(burst, reading, bytes)
      case TurnOn(reading) => Bucket(burst, ClockAfter(events))
  }

  // ------------------------------------------------------------ the word

  /** The reserved word, as `reserve` moves it. */
  function PaidAfter(events: seq<Event>): U64 {
    if events == [] then 0
    else
      var paid := PaidAfter(events[..|events| - 1]);
      match events[|events| - 1]
      case Reserve(reading, bytes) => Reserved(paid, reading, bytes)
      case TurnOn(_) => paid
  }

  /** The byte clock as of the last event. */
  function ClockAfter(events: seq<Event>): U64 {
    if events == [] then 0
    else
      match events[|events| - 1]
      case Reserve(reading, _) => reading
      case TurnOn(reading) => Max(reading, PaidAfter(events[..|events| - 1]))
  }

  /** Each event reads the clock no lower than the event before it left it. */
  predicate Readable(events: seq<Event>) {
    events != [] ==>
      && Readable(events[..|events| - 1])
      && ClockAfter(events[..|events| - 1]) <= events[|events| - 1].reading
  }

  /** The word without its 64-bit end. */
  function Owed(events: seq<Event>): nat {
    if events == [] then 0
    else
      var owed := Owed(events[..|events| - 1]);
      match events[|events| - 1]
      case Reserve(reading, bytes) => Max(owed, reading) + bytes
      case TurnOn(_) => owed
  }

  // --------------------------------------------------------- refinement

  /** Saturation only ever caps the word. */
  lemma {:induction false} TheWordIsOwedCapped(events: seq<Event>)
    ensures PaidAfter(events) == Min(Owed(events), U64_MAX)
  {
    if events != [] {
      TheWordIsOwedCapped(events[..|events| - 1]);
    }
  }

  lemma {:induction false} OwedOnlyGrows(events: seq<Event>)
    requires events != []
    ensures Owed(events[..|events| - 1]) <= Owed(events)
  {
  }

  /** While the word has not saturated, it and the clock say exactly what the
      bucket holds: the burst, less whatever is reserved and not yet paid
      for. */
  lemma {:induction false} TheWordIsATokenBucket(burst: U64, events: seq<Event>, reading: U64)
    requires Readable(events) && Owed(events) <= U64_MAX
    requires ClockAfter(events) <= reading
    ensures BucketAfter(burst, events).Refilled(burst, reading) == burst - Max(PaidAfter(events) - reading, 0)
  {
    TheWordIsOwedCapped(events);
    if events != [] {
      var before := events[..|events| - 1];
      OwedOnlyGrows(events);
      TheWordIsOwedCapped(before);
      match events[|events| - 1]
      case Reserve(at, bytes) => TheWordIsATokenBucket(burst, before, at);
      case TurnOn(at) =>
    }
  }

  /** A Low request waits for the clock to read its reserved word less the
      burst: exactly until the bucket it drew from, refilled since, is out of
      debt. */
  lemma ReadyIsOutOfDebt(burst: U64, events: seq<Event>, at: U64, bytes: U64, reading: U64)
    requires Readable(events) && ClockAfter(events) <= at <= reading
    requires Owed(events + [Reserve(at, bytes)]) <= U64_MAX
    ensures var after := events + [Reserve(at, bytes)];
            reading >= SatSub(PaidAfter(after), burst) <==> BucketAfter(burst, after).Refilled(burst, reading) >= 0
  {
    var after := events + [Reserve(at, bytes)];
    assert after[..|after| - 1] == events;
    TheWordIsATokenBucket(burst, after, reading);
  }

  /** At the moment it reserves, a Low request goes straight through exactly
      when the bucket covers it. */
  lemma ServedAtOnceIff(burst: U64, events: seq<Event>, at: U64, bytes: U64)
    requires Readable(events) && ClockAfter(events) <= at
    requires Owed(events + [Reserve(at, bytes)]) <= U64_MAX
    ensures at >= SatSub(PaidAfter(events + [Reserve(at, bytes)]), burst)
       <==> bytes <= BucketAfter(burst, events).Refilled(burst, at)
  {
    var after := events + [Reserve(at, bytes)];
    assert after[..|after| - 1] == events;
    ReadyIsOutOfDebt(burst, events, at, bytes, at);
  }
}
