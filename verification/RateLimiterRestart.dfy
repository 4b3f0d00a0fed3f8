/** Turning the limiter back on from a rate of zero: when the bucket is full. */
module RateLimiterRestart {
  import opened Words
  import opened ByteClock
  import opened RateLimiter
  import opened RateLimiterRuns
  import opened RateLimiterRefill

  /** Nothing is owed as of the moment the pace counts from: the bucket holds
      its burst. */
  predicate StartsFull(s: State) {
    s.paid <= s.pace.Clock(s.pace.since)
  }

  // ---------------------------------------------------- the word in between

  /** Only requests for some bytes reserve. */
  ghost predicate ForBytes(s: State) {
    forall t | t in s.threads && (s.threads[t].Clocked? || s.threads[t].Reserving?) :: s.threads[t].bytes > 0
  }

  lemma {:induction false} RunKeepsForBytes(states: seq<State>, steps: seq<Step>, i: nat)
    requires Run(states, steps) && i < |states|
    ensures ForBytes(states[i])
  {
    if i > 0 {
      RunKeepsForBytes(states, steps, i - 1);
      StepKeepsForBytes(states[i - 1], steps[i - 1]);
    }
  }

  lemma StepKeepsForBytes(s: State, step: Step)
    requires ForBytes(s) && Enabled(s, step)
    ensures ForBytes(Apply(s, step))
  {
  }

  lemma WordStep(s: State, step: Step)
    requires ForBytes(s) && Enabled(s, step)
    ensures var t := Apply(s, step);
      if t.reservations == s.reservations then t.paid == s.paid
      else |t.reservations| == |s.reservations| + 1 && s.paid <= t.paid && (t.paid < U64_MAX ==> s.paid < t.paid)
  {
  }

  /** The word moves exactly when a reservation lands, and then it grows, short
      of its end. */
  lemma {:induction false} WordGrowsByReservations(states: seq<State>, steps: seq<Step>, k: nat, i: nat)
    requires Run(states, steps) && k <= i < |states|
    ensures |states[k].reservations| <= |states[i].reservations| && states[k].paid <= states[i].paid
    ensures |states[k].reservations| == |states[i].reservations| ==> states[k].paid == states[i].paid
    ensures |states[k].reservations| < |states[i].reservations| && states[i].paid < U64_MAX ==>
      states[k].paid < states[i].paid
    decreases i - k
  {
    if k < i {
      WordGrowsByReservations(states, steps, k, i - 1);
      RunKeepsForBytes(states, steps, i - 1);
      WordStep(states[i - 1], steps[i - 1]);
    }
  }

  // ----------------------------------------------------- the change's load

  ghost predicate TurnsOn(l: Local) {
    l.Swapping? && l.from.rate == 0
  }

  lemma LoadStep(s: State, step: Step, t: Thread)
    requires Enabled(s, step) && TurnsOn(Apply(s, step).At(t))
    ensures
      || (step == LoadPaid(t) && Apply(s, step).At(t).seen == s.paid)
      || s.At(t) == Apply(s, step).At(t)
  {
  }

  /** The word such a change saw is what it held at some step of the call. */
  lemma {:induction false} SeenWhen(states: seq<State>, steps: seq<Step>, i: nat, t: Thread) returns (k: nat)
    requires Run(states, steps) && i < |states| && TurnsOn(states[i].At(t))
    ensures k < i && steps[k] == LoadPaid(t) && states[k].paid == states[i].At(t).seen
  {
    LoadStep(states[i - 1], steps[i - 1], t);
    if steps[i - 1] == LoadPaid(t) && states[i].At(t).seen == states[i - 1].paid {
      k := i - 1;
    } else {
      k := SeenWhen(states, steps, i - 1, t);
    }
  }

  lemma RestartAt(s: State, step: Step)
    requires AllFromTheirVersions(s) && Enabled(s, step) && Exact(s, step) && Repaces(s, step) && s.pace.rate == 0
    ensures var l, t := s.At(step.t), Apply(s, step);
      && TurnsOn(l) && t.paid == s.paid
      && t.pace.Clock(t.pace.since) == Max(s.pace.Clock(l.now), l.seen)
  {
    BytesForIsAFloor(0, Apply(s, step).pace.rate);
  }

  /** Whether the limiter comes back on with a full bucket. It does if no
      reservation, made at a pace from before it was turned off, landed between
      the change's load of the word and its swap. If one did, the bucket is full
      only where the clock was already past the word it left; so where the clock
      was not past the word loaded, exactly when none did. */
  lemma StartsFullExactlyWhen(states: seq<State>, steps: seq<Step>, i: nat) returns (k: nat)
    requires Run(states, steps) && i < |steps| && Repaces(states[i], steps[i]) && states[i].pace.rate == 0
    ensures k < i && steps[k] == LoadPaid(steps[i].t)
    ensures var l, none := states[i].At(steps[i].t), |states[k].reservations| == |states[i].reservations|;
      && l.Swapping?
      && (none ==> StartsFull(states[i + 1]))
      && (!none && states[i].paid < U64_MAX ==>
            (StartsFull(states[i + 1]) <==> states[i].paid <= states[i].pace.Clock(l.now)))
      && (states[i].pace.Clock(l.now) <= states[k].paid && states[i].paid < U64_MAX ==>
            (StartsFull(states[i + 1]) <==> none))
  {
    RunKeepsVersions(states, steps, i);
    RestartAt(states[i], steps[i]);
    k := SeenWhen(states, steps, i, steps[i].t);
    WordGrowsByReservations(states, steps, k, i);
  }

  // ------------------------------------------------------------- the race

  /** A request asks, and takes its reading. */
  lemma ReadingTaken(states: seq<State>, steps: seq<Step>, t: Thread, bytes: U64) returns (more: seq<State>, most: seq<Step>)
    requires Run(states, steps) && bytes > 0
    requires var s := states[|steps|]; s.At(t).Idle? && s.hasClock && !s.shutdown && s.pace.rate > 0
    ensures Run(more, most)
    ensures var s := states[|steps|];
      more[|most|] == s.(threads := more[|most|].threads) && (forall u | u != t :: more[|most|].At(u) == s.At(u))
      && more[|most|].At(t) == Clocked(bytes, High, Reading(s.time, s.pace, s.pace.Clock(s.time)))
  {
    var s := states[|steps|];
    more, most := Extended(states, steps, Ask(t, bytes, High));
    more, most := Extended(more, most, ReadTime(t));
    more, most := Extended(more, most, LoadPace(t, s.pace.Clock(s.time)));
  }

  /** Its reservation lands. */
  lemma ReservationLands(states: seq<State>, steps: seq<Step>, t: Thread) returns (more: seq<State>, most: seq<Step>)
    requires Run(states, steps) && states[|steps|].At(t).Clocked?
    ensures Run(more, most)
    ensures var s, l := states[|steps|], states[|steps|].At(t);
      && more[|most|].pace == s.pace && more[|most|].version == s.version
      && (forall u | u != t :: more[|most|].At(u) == s.At(u))
      && more[|most|].paid == Reserved(s.paid, l.reading.clock, l.bytes)
  {
    more, most := Extended(states, steps, LoadPaid(t));
    more, most := Extended(more, most, SwapPaid(t, false));
  }

  /** A rate change reads its time. */
  lemma ChangeBegins(states: seq<State>, steps: seq<Step>, t: Thread, rate: U64) returns (more: seq<State>, most: seq<Step>)
    requires Run(states, steps) && states[|steps|].At(t).Idle? && states[|steps|].hasClock
    ensures Run(more, most)
    ensures var s := states[|steps|];
      more[|most|] == s.(threads := more[|most|].threads) && (forall u | u != t :: more[|most|].At(u) == s.At(u))
      && more[|most|].At(t) == ChangingAt(rate, s.time)
  {
    more, most := Extended(states, steps, RateLimiterRuns.Change(t, rate));
    more, most := Extended(more, most, ReadTime(t));
  }

  /** A change of a limiter that is off loads the word. */
  lemma WordLoaded(states: seq<State>, steps: seq<Step>, t: Thread) returns (more: seq<State>, most: seq<Step>)
    requires Run(states, steps) && states[|steps|].At(t).ChangingAt? && states[|steps|].pace.rate == 0
    ensures Run(more, most)
    ensures var s, l := states[|steps|], states[|steps|].At(t);
      more[|most|] == s.(threads := more[|most|].threads) && (forall u | u != t :: more[|most|].At(u) == s.At(u))
      && more[|most|].At(t) == Swapping(l.rate, l.now, s.version, s.pace, s.paid)
  {
    var s := states[|steps|];
    more, most := Extended(states, steps, LoadPace(t, s.pace.Clock(s.At(t).now)));
    more, most := Extended(more, most, LoadPaid(t));
  }

  /** And lands. */
  lemma ChangeSwaps(states: seq<State>, steps: seq<Step>, t: Thread) returns (more: seq<State>, most: seq<Step>)
    requires Run(states, steps) && states[|steps|].At(t).Swapping? && states[|steps|].At(t).version == states[|steps|].version
    ensures Run(more, most) && |most| > 0 && Repaces(more[|most| - 1], most[|most| - 1])
    ensures var s, l := states[|steps|], states[|steps|].At(t);
      more[|most| - 1] == s && more[|most|].paid == s.paid && more[|most|].pace == Repaced(l.from, l.now, l.rate, l.seen)
  {
    var l := states[|steps|].At(t);
    more, most := Extended(states, steps, SwapPace(t, Repaced(l.from, l.now, l.rate, l.seen)));
  }

  /** With any rates: thread 0 takes its reading for `bytes`, thread 1 turns the
      limiter off and, having loaded the word to turn it on again, is overtaken
      by thread 0's reservation. */
  lemma Overtaken(rate: U64, bytes: U64) returns (states: seq<State>, steps: seq<Step>, off: Pace)
    requires rate > 0 && bytes > 0
    ensures Run(states, steps) && off == Repaced(Pace(rate, 0, 0), 0, 0, 0)
    ensures var s := states[|steps|];
      && s.pace == off && s.paid == Reserved(0, Pace(rate, 0, 0).Clock(0), bytes)
      && s.At(1) == Swapping(rate, 0, s.version, off, 0)
  {
    states, steps := [Init(rate, 1, Some(0))], [];
    states, steps := ReadingTaken(states, steps, 0, bytes);
    off := Repaced(Pace(rate, 0, 0), 0, 0, 0);
    states, steps := ChangeBegins(states, steps, 1, 0);
    states, steps := ChangeLands(states, steps, 1);
    states, steps := ChangeBegins(states, steps, 1, rate);
    states, steps := WordLoaded(states, steps, 1);
    states, steps := ReservationLands(states, steps, 0);
  }

  lemma NothingYet(rate: U64)
    ensures Pace(rate, 0, 0).Clock(0) == 0
    ensures Repaced(Pace(rate, 0, 0), 0, 0, 0) == Pace(0, 0, 0) && Repaced(Pace(0, 0, 0), 0, rate, 0) == Pace(rate, 0, 0)
  {
    BytesForIsAFloor(0, rate);
    BytesForIsAFloor(0, 0);
  }

  /** A run in which a limiter turned back on does not start full, at any rate
      and for any request: it owes the bytes of a reservation whose reading is
      from before it was turned off. */
  lemma ALateReservationIsOwed(rate: U64, bytes: U64) returns (states: seq<State>, steps: seq<Step>)
    requires rate > 0 && bytes > 0
    ensures Run(states, steps) && |steps| > 0 && Repaces(states[|steps| - 1], steps[|steps| - 1])
    ensures states[|steps| - 1].pace.rate == 0 && states[|steps|].pace == Pace(rate, 0, 0)
    ensures states[|steps|].paid == bytes && !StartsFull(states[|steps|])
  {
    var off;
    states, steps, off := Overtaken(rate, bytes);
    NothingYet(rate);
    states, steps := ChangeSwaps(states, steps, 1);
  }
}
