/** Every interleaving of requests, waits, rate changes and shutdown, one
    atomic access a step. */
module RateLimiterRuns {
  import opened Words
  import opened ByteClock
  import opened RateLimiter

  type Thread = nat

  /** A reading of the byte clock: when, at which pace, and what it said. */
  datatype Reading = Reading(now: U64, pace: Pace, clock: U64)

  predicate True(r: Reading) {
    r.clock == r.pace.Clock(r.now)
  }

  /** Where a thread is in `request`, in its wait, or in a rate change. */
  datatype Local =
    | Idle
    | Asked(bytes: U64, pri: Priority)
    | Timed(bytes: U64, pri: Priority, now: U64)
    | Clocked(bytes: U64, pri: Priority, reading: Reading)
    | Reserving(bytes: U64, pri: Priority, reading: Reading, current: U64)
    | Waiting(bytes: U64, slot: nat, ready: U64)
    | Looking(bytes: U64, slot: nat, ready: U64)
    | LookingAt(bytes: U64, slot: nat, ready: U64, now: U64)
    | Serving(bytes: U64, pri: Priority)
    | Changing(rate: U64)
    | ChangingAt(rate: U64, now: U64)
    | Restarting(rate: U64, now: U64, version: nat, from: Pace)
    | Swapping(rate: U64, now: U64, version: nat, from: Pace, seen: U64)

  /** A reservation, in the order the compare-and-swaps landed: the reading it
      was made at, the word it found and the word it left. */
  datatype Reservation = Reservation(bytes: U64, pri: Priority, reading: Reading, found: U64, paid: U64)

  /** The clock letting the request of reservation `slot` go. */
  datatype Release = Release(slot: nat, reading: Reading)

  datatype State = State(
    burst: U64,
    hasClock: bool,
    time: U64,
    pace: Pace,
    version: nat,
    paid: U64,
    shutdown: bool,
    threads: map<Thread, Local>,
    reservations: seq<Reservation>,
    releases: seq<Release>
  ) {
    function At(t: Thread): Local {
      if t in threads then threads[t] else Idle
    }
  }

  /** One atomic access. A load of the pace carries the reading it comes to,
      a swap of the pace the pace it puts in place: `Exact` says what they
      are. */
  datatype Step =
    | Tick(d: nat)
    | Stop
    | Ask(t: Thread, bytes: U64, pri: Priority)
    | ReadTime(t: Thread)
    | LoadPace(t: Thread, clock: U64)
    | LoadPaid(t: Thread)
    | SwapPaid(t: Thread, spurious: bool)
    | CheckStop(t: Thread)
    | Return(t: Thread)
    | Change(t: Thread, rate: U64)
    | SwapPace(t: Thread, next: Pace)

  function Init(rate: U64, burst: U64, now: Option<U64>): State {
    State(Max(burst, 1), now.Some?, if now.Some? then now.value else 0,
          Pace(rate, 0, if now.Some? then now.value else 0), 0, 0, false, map[], [], [])
  }

  predicate Enabled(s: State, step: Step) {
    match step
    case Tick(d) => s.time + d <= U64_MAX
    case Stop => true
    case Ask(t, _, _) => s.At(t).Idle?
    case ReadTime(t) => s.At(t).Asked? || s.At(t).Looking? || s.At(t).Changing?
    case LoadPace(t, _) => s.At(t).Timed? || s.At(t).LookingAt? || s.At(t).ChangingAt?
    case LoadPaid(t) => s.At(t).Clocked? || s.At(t).Restarting?
    case SwapPaid(t, _) => s.At(t).Reserving?
    case CheckStop(t) => s.At(t).Waiting?
    case Return(t) => s.At(t).Serving?
    case Change(t, _) => s.At(t).Idle?
    case SwapPace(t, _) => s.At(t).Swapping?
  }

  /** What the arithmetic of a step comes to. */
  predicate Exact(s: State, step: Step)
    requires Enabled(s, step)
  {
    match step
    case LoadPace(t, clock) => clock == s.pace.Clock(s.At(t).now)
    case SwapPace(t, next) =>
      var Swapping(rate, now, version, from, seen) := s.At(t);
      next == Repaced(from, now, rate, seen)
    case _ => true
  }

  /** Where the step takes the thread that makes it. */
  function Next(s: State, step: Step): Local
    requires Enabled(s, step) && !step.Tick? && !step.Stop?
  {
    match step
    case Ask(t, bytes, pri) => if s.shutdown then Idle else Asked(bytes, pri)
    case ReadTime(t) =>
      (match s.At(t)
       case Asked(bytes, pri) => if s.hasClock then Timed(bytes, pri, s.time) else Serving(bytes, pri)
       case Looking(bytes, slot, ready) =>
         if s.hasClock then LookingAt(bytes, slot, ready, s.time) else Serving(bytes, Low)
       case Changing(rate) => ChangingAt(rate, if s.hasClock then s.time else 0))
    case LoadPace(t, clock) =>
      (match s.At(t)
       case Timed(bytes, pri, now) =>
         if s.pace.rate > 0 && bytes > 0 then Clocked(bytes, pri, Reading(now, s.pace, clock))
         else Serving(bytes, pri)
       case LookingAt(bytes, slot, ready, now) =>
         if s.pace.rate == 0 || clock >= ready then Serving(bytes, Low) else Waiting(bytes, slot, ready)
       case ChangingAt(rate, now) =>
         if s.pace.rate == 0 then Restarting(rate, now, s.version, s.pace)
         else Swapping(rate, now, s.version, s.pace, 0))
    case LoadPaid(t) =>
      (match s.At(t)
       case Clocked(bytes, pri, reading) => Reserving(bytes, pri, reading, s.paid)
       case Restarting(rate, now, version, from) => Swapping(rate, now, version, from, s.paid))
    case SwapPaid(t, spurious) =>
      var Reserving(bytes, pri, reading, current) := s.At(t);
      if !Lands(s, step) then Reserving(bytes, pri, reading, s.paid)
      else if pri.High? then Serving(bytes, pri)
      else Waiting(bytes, |s.reservations|, SatSub(Reserved(current, reading.clock, bytes), s.burst))
    case CheckStop(t) =>
      var Waiting(bytes, slot, ready) := s.At(t);
      if s.shutdown then Idle else Looking(bytes, slot, ready)
    case Return(t) => Idle
    case Change(t, rate) => Changing(rate)
    case SwapPace(t, next) => if Repaces(s, step) then Idle else Changing(s.At(t).rate)
  }

  /** The swap of the word finds it as it was loaded. */
  predicate Lands(s: State, step: Step)
    requires Enabled(s, step)
  {
    step.SwapPaid? && !step.spurious && s.paid == s.At(step.t).current
  }

  /** The swap of the pace finds the one it was computed from. */
  predicate Repaces(s: State, step: Step)
    requires Enabled(s, step)
  {
    step.SwapPace? && s.version == s.At(step.t).version
  }

  /** The clock, not a limiter turned off, lets the request go. */
  predicate LetsGo(s: State, step: Step)
    requires Enabled(s, step)
  {
    step.LoadPace? && s.At(step.t).LookingAt? && s.pace.rate > 0 && step.clock >= s.At(step.t).ready
  }

  function Made(s: State, step: Step): Reservation
    requires Enabled(s, step) && Lands(s, step)
  {
    var Reserving(bytes, pri, reading, current) := s.At(step.t);
    Reservation(bytes, pri, reading, current, Reserved(current, reading.clock, bytes))
  }

  function Apply(s: State, step: Step): State
    requires Enabled(s, step)
  {
    if step.Tick? then s.(time := s.time + step.d)
    else if step.Stop? then s.(shutdown := true)
    else
      s.(threads := s.threads[step.t := Next(s, step)],
         paid := if Lands(s, step) then Made(s, step).paid else s.paid,
         reservations := if Lands(s, step) then s.reservations + [Made(s, step)] else s.reservations,
         releases := if LetsGo(s, step)
                     then s.releases + [Release(s.At(step.t).slot, Reading(s.At(step.t).now, s.pace, step.clock))]
                     else s.releases,
         pace := if Repaces(s, step) then step.next else s.pace,
         version := if Repaces(s, step) then s.version + 1 else s.version)
  }

  /** A run: its states and the steps between them. */
  ghost predicate Run(states: seq<State>, steps: seq<Step>) {
    && |states| == |steps| + 1
    && (exists rate, burst, now :: states[0] == Init(rate, burst, now))
    && forall i | 0 <= i < |steps| ::
         Enabled(states[i], steps[i]) && Exact(states[i], steps[i]) && states[i + 1] == Apply(states[i], steps[i])
  }

  // ----------------------------------------------------------- invariant

  ghost predicate Adds(r: Reservation) {
    r.paid == Reserved(r.found, r.reading.clock, r.bytes)
  }

  /** The reservations chain: each found the word the one before left, and
      the last left the word as it stands. */
  ghost predicate Chained(s: State) {
    && (forall k | 0 <= k < |s.reservations| :: Adds(s.reservations[k]))
    && (forall k, m | 0 <= k < m < |s.reservations| && m == k + 1 :: s.reservations[m].found == s.reservations[k].paid)
    && s.paid == if s.reservations == [] then 0 else s.reservations[|s.reservations| - 1].paid
  }

  /** A thread between its reservation and its release still holds the
      reservation's own target. */
  ghost predicate Aims(s: State, l: Local) {
    Blocked(l) ==>
      && l.slot < |s.reservations|
      && s.reservations[l.slot].pri.Low?
      && l.ready == SatSub(s.reservations[l.slot].paid, s.burst)
      && l.bytes == s.reservations[l.slot].bytes
  }

  ghost predicate Blocked(l: Local) {
    l.Waiting? || l.Looking? || l.LookingAt?
  }

  /** No reservation is waited for twice. */
  ghost predicate WaitedForOnce(s: State) {
    forall t, u | t in s.threads && u in s.threads && t != u ::
      Blocked(s.threads[t]) && Blocked(s.threads[u]) ==> s.threads[t].slot != s.threads[u].slot
  }

  /** None is waited for once it is let go, and none is let go twice. */
  ghost predicate GoneOnce(s: State) {
    && (forall t, i | t in s.threads && 0 <= i < |s.releases| ::
          Blocked(s.threads[t]) ==> s.threads[t].slot != s.releases[i].slot)
    && (forall i, k | 0 <= i < k < |s.releases| :: s.releases[i].slot != s.releases[k].slot)
  }

  ghost predicate Released(s: State, r: Release) {
    && r.slot < |s.reservations|
    && r.reading.pace.rate > 0
    && s.reservations[r.slot].pri.Low?
    && r.reading.clock >= SatSub(s.reservations[r.slot].paid, s.burst)
  }

  /** Every reading kept is what its pace reads at its time. */
  ghost predicate TrueReadings(s: State) {
    && (forall k | 0 <= k < |s.reservations| :: True(s.reservations[k].reading))
    && (forall i | 0 <= i < |s.releases| :: True(s.releases[i].reading))
    && (forall t | t in s.threads && (s.threads[t].Clocked? || s.threads[t].Reserving?) :: True(s.threads[t].reading))
  }

  ghost predicate AllAim(s: State) {
    forall t | t in s.threads :: Aims(s, s.threads[t])
  }

  ghost predicate AllReleased(s: State) {
    forall i | 0 <= i < |s.releases| :: Released(s, s.releases[i])
  }

  ghost predicate Inv(s: State) {
    Chained(s) && TrueReadings(s) && AllAim(s) && AllReleased(s) && WaitedForOnce(s) && GoneOnce(s)
  }

  lemma StepKeepsChain(s: State, step: Step)
    requires Chained(s) && Enabled(s, step)
    ensures Chained(Apply(s, step))
  {
  }

  lemma StepKeepsReadings(s: State, step: Step)
    requires TrueReadings(s) && Enabled(s, step) && Exact(s, step)
    ensures TrueReadings(Apply(s, step))
  {
  }

  lemma StepKeepsAims(s: State, step: Step)
    requires AllAim(s) && AllReleased(s) && Enabled(s, step)
    ensures AllAim(Apply(s, step)) && AllReleased(Apply(s, step))
  {
  }

  lemma StepKeepsWaiters(s: State, step: Step)
    requires AllAim(s) && WaitedForOnce(s) && Enabled(s, step)
    ensures WaitedForOnce(Apply(s, step))
  {
  }

  lemma StepKeepsGone(s: State, step: Step)
    requires AllAim(s) && AllReleased(s) && WaitedForOnce(s) && GoneOnce(s) && Enabled(s, step)
    ensures GoneOnce(Apply(s, step))
  {
  }

  lemma StepKeepsInv(s: State, step: Step)
    requires Inv(s) && Enabled(s, step) && Exact(s, step)
    ensures Inv(Apply(s, step))
  {
    StepKeepsChain(s, step);
    StepKeepsReadings(s, step);
    StepKeepsAims(s, step);
    StepKeepsWaiters(s, step);
    StepKeepsGone(s, step);
  }

  lemma {:induction false} RunKeepsInv(states: seq<State>, steps: seq<Step>, i: nat)
    requires Run(states, steps) && i < |states|
    ensures Inv(states[i]) && states[i].burst == states[0].burst
  {
    if i > 0 {
      RunKeepsInv(states, steps, i - 1);
      StepKeepsInv(states[i - 1], steps[i - 1]);
    }
  }

  // ------------------------------------------------------------- results

  /** Bytes of reservations `j..i`. */
  ghost function BytesOf(rs: seq<Reservation>, j: nat, i: nat): nat
    requires j <= i <= |rs|
  {
    if i == j then 0 else BytesOf(rs, j, i - 1) + rs[i - 1].bytes
  }

  lemma {:induction false} ChainCovers(s: State, j: nat, i: nat)
    requires Chained(s) && j <= i < |s.reservations|
    ensures s.reservations[j].paid <= s.reservations[i].paid
    ensures s.reservations[i].paid == U64_MAX
         || s.reservations[j].reading.clock + BytesOf(s.reservations, j, i + 1) <= s.reservations[i].paid
  {
    if j < i {
      ChainCovers(s, j, i - 1);
    }
  }

  /** In every interleaving, when the clock lets a Low request go, the
      reservations from any `j` up to its own, High ones included, total at
      most the burst plus what the clock moved from `j`'s reading to the
      releasing one (word saturation aside). */
  lemma ReleasedWithinTheBurst(states: seq<State>, steps: seq<Step>, n: nat, r: nat, j: nat)
    requires Run(states, steps) && n < |states| && r < |states[n].releases| && j <= states[n].releases[r].slot
    ensures var s := states[n];
            var rel := s.releases[r];
            && rel.slot < |s.reservations|
            && (s.reservations[rel.slot].paid < U64_MAX ==>
                  BytesOf(s.reservations, j, rel.slot + 1) <= s.burst + rel.reading.clock - s.reservations[j].reading.clock)
  {
    RunKeepsInv(states, steps, n);
    ChainCovers(states[n], j, states[n].releases[r].slot);
  }

  /** No reservation read a time still to come, and whoever is let go, or is
      about to look at the clock, read time no earlier than every reservation
      up to its own did. */
  ghost predicate Dated(s: State) {
    && (forall k | 0 <= k < |s.reservations| :: s.reservations[k].reading.now <= s.time)
    && (forall t | t in s.threads :: DatedThread(s, s.threads[t]))
    && (forall r | 0 <= r < |s.releases| :: AfterAll(s, s.releases[r].slot, s.releases[r].reading.now))
  }

  ghost predicate DatedThread(s: State, l: Local) {
    && (l.Timed? ==> l.now <= s.time)
    && (l.Clocked? || l.Reserving? ==> l.reading.now <= s.time)
    && (l.LookingAt? ==> AfterAll(s, l.slot, l.now))
  }

  ghost predicate AfterAll(s: State, slot: nat, now: U64) {
    forall j | 0 <= j <= slot && j < |s.reservations| :: s.reservations[j].reading.now <= now
  }

  lemma AfterAllStays(s: State, t: State, slot: nat, now: U64)
    requires AfterAll(s, slot, now) && s.reservations <= t.reservations && slot < |s.reservations|
    ensures AfterAll(t, slot, now)
  {
  }

  lemma StepDatesReservations(s: State, step: Step)
    requires Dated(s) && Enabled(s, step)
    ensures s.time <= Apply(s, step).time && s.reservations <= Apply(s, step).reservations
    ensures forall k | 0 <= k < |Apply(s, step).reservations| ::
      Apply(s, step).reservations[k].reading.now <= Apply(s, step).time
  {
  }

  lemma StepDatesItsThread(s: State, step: Step)
    requires Dated(s) && Enabled(s, step) && !step.Tick? && !step.Stop?
    ensures var l := Next(s, step);
      && (l.Timed? ==> l.now <= s.time)
      && (l.Clocked? || l.Reserving? ==> l.reading.now <= s.time)
      && (l.LookingAt? ==> AfterAll(s, l.slot, l.now) && !Lands(s, step))
  {
  }

  lemma StepDatesThread(s: State, step: Step, u: Thread)
    requires Dated(s) && AllAim(s) && Enabled(s, step) && u in Apply(s, step).threads
    ensures DatedThread(Apply(s, step), Apply(s, step).threads[u])
  {
    StepDatesReservations(s, step);
    if !step.Tick? && !step.Stop? && u == step.t {
      StepDatesItsThread(s, step);
    } else if s.threads[u].LookingAt? {
      AfterAllStays(s, Apply(s, step), s.threads[u].slot, s.threads[u].now);
    }
  }

  lemma StepDatesReleases(s: State, step: Step, r: nat)
    requires Dated(s) && AllAim(s) && AllReleased(s) && Enabled(s, step) && r < |Apply(s, step).releases|
    ensures var t := Apply(s, step); AfterAll(t, t.releases[r].slot, t.releases[r].reading.now)
  {
    StepDatesReservations(s, step);
    var t := Apply(s, step);
    if r < |s.releases| {
      AfterAllStays(s, t, s.releases[r].slot, s.releases[r].reading.now);
    }
  }

  lemma StepKeepsDated(s: State, step: Step)
    requires Dated(s) && AllAim(s) && AllReleased(s) && Enabled(s, step)
    ensures Dated(Apply(s, step))
  {
    var t := Apply(s, step);
    StepDatesReservations(s, step);
    forall u | u in t.threads ensures DatedThread(t, t.threads[u]) {
      StepDatesThread(s, step, u);
    }
    forall r | 0 <= r < |t.releases| ensures AfterAll(t, t.releases[r].slot, t.releases[r].reading.now) {
      StepDatesReleases(s, step, r);
    }
  }

  lemma {:induction false} RunKeepsDated(states: seq<State>, steps: seq<Step>, i: nat)
    requires Run(states, steps) && i < |states|
    ensures Dated(states[i])
  {
    if i > 0 {
      RunKeepsDated(states, steps, i - 1);
      RunKeepsInv(states, steps, i - 1);
      StepKeepsDated(states[i - 1], steps[i - 1]);
    }
  }

  /** The same bound in time: for two readings of one pace, the bytes let go are
      at most the burst plus rate times the time between them, rounded up. A
      time read before the pace began counts as its beginning. */
  lemma ReleasedWithinTheRate(states: seq<State>, steps: seq<Step>, n: nat, r: nat, j: nat)
    requires Run(states, steps) && n < |states| && r < |states[n].releases| && j <= states[n].releases[r].slot
    requires states[n].releases[r].slot < |states[n].reservations|
    requires states[n].reservations[states[n].releases[r].slot].paid < U64_MAX
    requires states[n].reservations[j].reading.pace == states[n].releases[r].reading.pace
    ensures var s, p := states[n], states[n].releases[r].reading.pace;
            var read, freed := s.reservations[j].reading.now, s.releases[r].reading.now;
            && read <= freed
            && BytesOf(s.reservations, j, s.releases[r].slot + 1) * NANOS_PER_SECOND
               < (s.burst + 1) * NANOS_PER_SECOND + (Max(freed, p.since) - Max(read, p.since)) * p.rate
  {
    var rel := states[n].releases[r];
    var p, read := rel.reading.pace, states[n].reservations[j].reading.now;
    RunKeepsInv(states, steps, n);
    RunKeepsDated(states, steps, n);
    ReleasedWithinTheBurst(states, steps, n, r, j);
    ReadBeforeThePace(p, read);
    ReadBeforeThePace(p, rel.reading.now);
    ClockStep(p, Max(read, p.since), Max(rel.reading.now, p.since));
  }

  /** First come, first served: in swap order the target of no reservation is
      below that of an earlier one, and a reading that let a Low request go is
      enough for every thread, at whatever point of its wait, whose reservation
      came before. */
  lemma FirstComeFirstServed(states: seq<State>, steps: seq<Step>, n: nat, i: nat, k: nat)
    requires Run(states, steps) && n < |states| && i <= k < |states[n].reservations|
    ensures var s := states[n]; SatSub(s.reservations[i].paid, s.burst) <= SatSub(s.reservations[k].paid, s.burst)
    ensures forall t | Blocked(states[n].At(t)) && states[n].At(t).slot == i ::
      && (forall u | Blocked(states[n].At(u)) && states[n].At(u).slot == k :: states[n].At(t).ready <= states[n].At(u).ready)
      && (forall r | 0 <= r < |states[n].releases| && states[n].releases[r].slot == k ::
            states[n].releases[r].reading.clock >= states[n].At(t).ready)
  {
    RunKeepsInv(states, steps, n);
    ChainCovers(states[n], i, k);
  }

  /** Later steps never rewrite a reservation: swap order is fixed once. */
  lemma {:induction false} ReservationsOnlyGrow(states: seq<State>, steps: seq<Step>, i: nat, j: nat)
    requires Run(states, steps) && i <= j < |states|
    ensures states[i].reservations <= states[j].reservations
    ensures states[i].releases <= states[j].releases
    decreases j - i
  {
    if i < j {
      ReservationsOnlyGrow(states, steps, i, j - 1);
    }
  }

  /** Each reservation is let go at most once. */
  lemma LetGoOnce(states: seq<State>, steps: seq<Step>, n: nat, i: nat, k: nat)
    requires Run(states, steps) && n < |states| && i < k < |states[n].releases|
    ensures states[n].releases[i].slot != states[n].releases[k].slot
  {
    RunKeepsInv(states, steps, n);
  }

  /** What lets a request through: no clock, no bytes, or the limiter off when
      it looked; for a High one its reservation; for a Low one, once reserved,
      the clock at its target, or no clock, or the limiter off when it looked
      again. So while the limiter is on every request of some bytes reserves,
      and every Low one waits. */
  lemma NoRequestSlipsPast(states: seq<State>, steps: seq<Step>, i: nat, t: Thread)
    requires Run(states, steps) && i < |steps| && !states[i].At(t).Serving? && states[i + 1].At(t).Serving?
    ensures var s, l := states[i], states[i].At(t);
      || (l.Asked? && !s.hasClock)
      || (l.Timed? && (s.pace.rate == 0 || l.bytes == 0))
      || (l.Reserving? && l.pri.High? && |states[i + 1].reservations| == |s.reservations| + 1)
      || (Blocked(l) && (!s.hasClock || s.pace.rate == 0 || |states[i + 1].releases| == |s.releases| + 1))
  {
  }

  /** A limiter that is stopped stays stopped, turns every new request away
      without a reservation, and ends each wait, uncounted, at its next look. */
  lemma AStopLetsEveryoneGo(states: seq<State>, steps: seq<Step>, i: nat)
    requires Run(states, steps) && i < |steps| && states[i].shutdown
    ensures states[i + 1].shutdown
    ensures steps[i].Ask? ==> states[i + 1].At(steps[i].t).Idle? && states[i + 1].reservations == states[i].reservations
    ensures steps[i].CheckStop? ==> states[i + 1].At(steps[i].t).Idle? && states[i + 1].releases == states[i].releases
  {
  }
}
