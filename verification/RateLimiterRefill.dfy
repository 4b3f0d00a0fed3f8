/** The limiter's bound across rate changes: what it lets go, against the exact
    refill at the rates in force, and what an out-of-order change does to it. */
module RateLimiterRefill {
  import opened Words
  import opened ByteClock
  import opened RateLimiterRuns

  // ---------------------------------------------- the changes between states

  /** The rate changes that landed from state `i` to state `j`. */
  ghost function ChangesIn(states: seq<State>, steps: seq<Step>, i: nat, j: nat): seq<ByteClock.Change>
    requires Run(states, steps) && i <= j < |states|
    decreases j - i
  {
    if i == j then []
    else
      var s, step := states[j - 1], steps[j - 1];
      ChangesIn(states, steps, i, j - 1)
      + if Repaces(s, step) then [ByteClock.Change(s.At(step.t).now, s.At(step.t).rate, s.At(step.t).seen)] else []
  }

  /** A change about to swap was computed from the pace its version names. */
  ghost predicate FromTheVersion(s: State, l: Local) {
    l.Restarting? || l.Swapping? ==> l.version <= s.version && (l.version == s.version ==> l.from == s.pace)
  }

  ghost predicate AllFromTheirVersions(s: State) {
    forall t | t in s.threads :: FromTheVersion(s, s.threads[t])
  }

  lemma StepKeepsVersions(s: State, step: Step)
    requires AllFromTheirVersions(s) && Enabled(s, step)
    ensures AllFromTheirVersions(Apply(s, step))
  {
  }

  lemma {:induction false} RunKeepsVersions(states: seq<State>, steps: seq<Step>, i: nat)
    requires Run(states, steps) && i < |states|
    ensures AllFromTheirVersions(states[i])
  {
    if i > 0 {
      RunKeepsVersions(states, steps, i - 1);
      StepKeepsVersions(states[i - 1], steps[i - 1]);
    }
  }

  lemma PaceStep(s: State, step: Step)
    requires AllFromTheirVersions(s) && Enabled(s, step) && Exact(s, step)
    ensures Apply(s, step).pace == if Repaces(s, step)
      then Changed(s.pace, ByteClock.Change(s.At(step.t).now, s.At(step.t).rate, s.At(step.t).seen)) else s.pace
  {
  }

  /** The pace in force is the changes that landed, applied in order: no change
      is computed from a pace another has replaced. */
  lemma {:induction false} PaceIsTheChanges(states: seq<State>, steps: seq<Step>, i: nat, j: nat)
    requires Run(states, steps) && i <= j < |states|
    ensures states[j].pace == After(states[i].pace, ChangesIn(states, steps, i, j))
    decreases j - i
  {
    if i < j {
      PaceIsTheChanges(states, steps, i, j - 1);
      RunKeepsVersions(states, steps, j - 1);
      PaceStep(states[j - 1], steps[j - 1]);
      var s, step, before := states[j - 1], steps[j - 1], ChangesIn(states, steps, i, j - 1);
      if Repaces(s, step) {
        AfterOneMore(states[i].pace, before, ByteClock.Change(s.At(step.t).now, s.At(step.t).rate, s.At(step.t).seen));
      } else {
        assert before + [] == before;
      }
    }
  }

  // --------------------------------------------- when a reading was taken

  lemma ReadingStep(s: State, step: Step, t: Thread)
    requires Enabled(s, step)
    requires Apply(s, step).At(t).Clocked? || Apply(s, step).At(t).Reserving?
    ensures
      || s.pace == Apply(s, step).At(t).reading.pace
      || ((s.At(t).Clocked? || s.At(t).Reserving?) && s.At(t).reading == Apply(s, step).At(t).reading)
  {
  }

  /** The pace a request read was in force at some moment up to now. */
  lemma {:induction false} ReadingTakenAt(states: seq<State>, steps: seq<Step>, n: nat, t: Thread) returns (i: nat)
    requires Run(states, steps) && n < |states| && (states[n].At(t).Clocked? || states[n].At(t).Reserving?)
    ensures i < n && states[i].pace == states[n].At(t).reading.pace
  {
    ReadingStep(states[n - 1], steps[n - 1], t);
    if states[n - 1].pace == states[n].At(t).reading.pace {
      i := n - 1;
    } else {
      i := ReadingTakenAt(states, steps, n - 1, t);
    }
  }

  lemma ReservationStep(s: State, step: Step)
    requires Enabled(s, step)
    ensures var now := Apply(s, step).reservations;
      now == s.reservations
      || (step.SwapPaid? && s.At(step.t).Reserving? && now == s.reservations + [now[|s.reservations|]]
          && now[|s.reservations|].reading == s.At(step.t).reading)
  {
  }

  /** The pace a reservation was made at was in force before it landed. */
  lemma {:induction false} ReservationReadAt(states: seq<State>, steps: seq<Step>, n: nat, j: nat) returns (i: nat)
    requires Run(states, steps) && n < |states| && j < |states[n].reservations|
    ensures i < n && |states[i].reservations| <= j && states[i].pace == states[n].reservations[j].reading.pace
  {
    ReservationStep(states[n - 1], steps[n - 1]);
    if j < |states[n - 1].reservations| {
      i := ReservationReadAt(states, steps, n - 1, j);
    } else {
      i := ReadingTakenAt(states, steps, n - 1, steps[n - 1].t);
      ReservationsOnlyGrow(states, steps, i, n - 1);
    }
  }

  lemma ReleaseStep(s: State, step: Step)
    requires Enabled(s, step) && AllAim(s)
    ensures var now := Apply(s, step).releases;
      now == s.releases
      || (now == s.releases + [now[|s.releases|]] && now[|s.releases|].reading.pace == s.pace
          && now[|s.releases|].slot < |s.reservations|)
  {
  }

  /** The pace a request was let go at was in force once it had reserved. */
  lemma {:induction false} ReleaseReadAt(states: seq<State>, steps: seq<Step>, n: nat, r: nat) returns (k: nat)
    requires Run(states, steps) && n < |states| && r < |states[n].releases|
    ensures k < n && states[n].releases[r].slot < |states[k].reservations|
    ensures states[k].pace == states[n].releases[r].reading.pace
  {
    RunKeepsInv(states, steps, n - 1);
    ReleaseStep(states[n - 1], steps[n - 1]);
    if r < |states[n - 1].releases| {
      k := ReleaseReadAt(states, steps, n - 1, r);
    } else {
      k := n - 1;
    }
  }

  // ------------------------------------------------------------- the bound

  /** What the clock gained from `t` at pace `p` to `now` after the changes, at
      most: the exact refill in between and less than a byte. */
  lemma GainWithinTheRefill(p: Pace, changes: seq<ByteClock.Change>, t: U64, now: U64)
    requires InOrder(p, changes) && p.Clock(t) < U64_MAX
    ensures (After(p, changes).Clock(now) - p.Clock(t)) * NANOS_PER_SECOND
      < ExactRefill(p, changes, Max(now, After(p, changes).since)) - p.rate * (Max(t, p.since) - p.since) + NANOS_PER_SECOND
  {
    ReadBeforeThePace(p, t);
    ReadBeforeThePace(After(p, changes), now);
    ClockTracksExactRefill(p, changes, Max(now, After(p, changes).since));
    OneStretch(p, Max(t, p.since));
  }

  /** Across any rate changes that read time in order, the reservations from any
      `j` up to one let go total at most the burst, the exact refill at the
      rates in force from `j`'s reading to the releasing one, and a byte. A time
      read before the pace it was counted at began counts as its beginning. */
  lemma ReleasedWithinTheRefill(states: seq<State>, steps: seq<Step>, n: nat, r: nat, j: nat) returns (i: nat, k: nat)
    requires Run(states, steps) && n < |states| && r < |states[n].releases| && j <= states[n].releases[r].slot
    requires states[n].releases[r].slot < |states[n].reservations|
    requires states[n].reservations[states[n].releases[r].slot].paid < U64_MAX
    ensures i < k < |states|
    ensures states[i].pace == states[n].reservations[j].reading.pace && states[k].pace == states[n].releases[r].reading.pace
    ensures
      var s, p, changes := states[n], states[i].pace, ChangesIn(states, steps, i, k);
      var read, freed := Max(s.reservations[j].reading.now, p.since), Max(s.releases[r].reading.now, states[k].pace.since);
      InOrder(p, changes) ==>
        BytesOf(s.reservations, j, s.releases[r].slot + 1) * NANOS_PER_SECOND
        < (s.burst + 1) * NANOS_PER_SECOND + ExactRefill(p, changes, freed) - p.rate * (read - p.since)
  {
    var s := states[n];
    i := ReservationReadAt(states, steps, n, j);
    k := ReleaseReadAt(states, steps, n, r);
    if k <= i {
      ReservationsOnlyGrow(states, steps, k, i);
    }
    PaceIsTheChanges(states, steps, i, k);
    RunKeepsInv(states, steps, n);
    ReleasedWithinTheBurst(states, steps, n, r, j);
    ChainCovers(s, j, s.releases[r].slot);
    var p, changes := states[i].pace, ChangesIn(states, steps, i, k);
    var read, freed := s.reservations[j].reading, s.releases[r].reading;
    if InOrder(p, changes) {
      GainWithinTheRefill(p, changes, read.now, freed.now);
      Scaled(BytesOf(s.reservations, j, s.releases[r].slot + 1), s.burst + (freed.clock - read.clock));
    }
  }

  lemma Scaled(x: int, y: int)
    requires x <= y
    ensures x * NANOS_PER_SECOND <= y * NANOS_PER_SECOND
  {
  }

  // ------------------------------------------------------ out of order

  lemma Extended(states: seq<State>, steps: seq<Step>, step: Step) returns (more: seq<State>, most: seq<Step>)
    requires Run(states, steps) && Enabled(states[|steps|], step) && Exact(states[|steps|], step)
    ensures Run(more, most) && |more| == |states| + 1 && most == steps + [step]
    ensures more[|steps|] == states[|steps|] && more[|most|] == Apply(states[|steps|], step)
  {
    more, most := states + [Apply(states[|steps|], step)], steps + [step];
    assert more[0] == states[0];
  }

  /** A change that has read its time and loses no race lands. */
  lemma ChangeLands(states: seq<State>, steps: seq<Step>, t: Thread) returns (more: seq<State>, most: seq<Step>)
    requires Run(states, steps) && states[|steps|].At(t).ChangingAt? && states[|steps|].pace.rate > 0
    ensures Run(more, most) && |most| > |steps| && Repaces(more[|most| - 1], most[|most| - 1])
    ensures var s, was, now := states[|steps|], more[|most| - 1], more[|most|];
      && was.pace == s.pace && was.time == now.time == s.time && now.hasClock == s.hasClock && now.paid == s.paid
      && now.At(t).Idle?
      && now.pace == Repaced(s.pace, s.At(t).now, s.At(t).rate, 0)
      && forall u | u != t :: now.At(u) == s.At(u)
  {
    var s := states[|steps|];
    more, most := Extended(states, steps, LoadPace(t, s.pace.Clock(s.At(t).now)));
    more, most := Extended(more, most, SwapPace(t, Repaced(s.pace, s.At(t).now, s.At(t).rate, 0)));
  }

  /** Two changes, by threads 0 and 1; the first reads time before the clock
      moves on by `d`, the second after. */
  lemma TwoReads(rate: U64, first: U64, second: U64, d: U64) returns (states: seq<State>, steps: seq<Step>)
    ensures Run(states, steps)
    ensures var s := states[|steps|];
      s.time == d && s.pace == Pace(rate, 0, 0) && s.At(0) == ChangingAt(first, 0) && s.At(1) == ChangingAt(second, d)
  {
    states, steps := [Init(rate, 1, Some(0))], [];
    states, steps := Extended(states, steps, RateLimiterRuns.Change(0, first));
    states, steps := Extended(states, steps, ReadTime(0));
    states, steps := Extended(states, steps, Tick(d));
    states, steps := Extended(states, steps, RateLimiterRuns.Change(1, second));
    states, steps := Extended(states, steps, ReadTime(1));
  }

  /** A run in which the clock counts one second twice: a change that read time
      0 lands after one that read one second, and the reading at one second goes
      from 1 byte to 1001. */
  lemma AnEarlierReadLandsLater() returns (states: seq<State>, steps: seq<Step>)
    ensures Run(states, steps) && |steps| > 0 && Repaces(states[|steps| - 1], steps[|steps| - 1])
    ensures states[|steps| - 1].time == states[|steps|].time == NANOS_PER_SECOND
    ensures states[|steps| - 1].pace.Clock(NANOS_PER_SECOND) == 1
    ensures states[|steps|].pace.Clock(NANOS_PER_SECOND) == 1001
  {
    var second := NANOS_PER_SECOND;
    states, steps := TwoReads(1, 1000, 1, second);
    states, steps := ChangeLands(states, steps, 1);
    ASecondAtOneByte();
    states, steps := ChangeLands(states, steps, 0);
    AnOutOfOrderReadCountsTimeTwice();
  }

  lemma ASecondAtOneByte()
    ensures Repaced(Pace(1, 0, 0), NANOS_PER_SECOND, 1, 0) == Pace(1, 1, NANOS_PER_SECOND)
  {
    assert BytesFor(NANOS_PER_SECOND, 1) == 1;
    assert Pace(1, 0, 0).Clock(NANOS_PER_SECOND) == 1;
  }
}
