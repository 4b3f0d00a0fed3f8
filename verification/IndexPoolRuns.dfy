/** Every interleaving of threads claiming their number, giving it back as they
    exit, and asking again from the destructors of other thread-locals. */
module IndexPoolRuns {
  import opened Words
  import opened Bits
  import opened IndexPool

  type Thread = nat

  /** The thread-local that gives the number back: never touched, alive with
      the number it holds, or its destructor has begun. */
  datatype Held = Fresh | Live(number: Option<nat>) | Destroyed

  /** Where the thread is in `index`, `claim`, `assign` or `Held::drop`. */
  datatype Phase =
    | Outside
    | AtWord(wordNo: nat)
    | Seen(wordNo: nat, bits: nat)
    | Claimed(number: nat, owned: bool)
    | Returning(number: nat, reuse: bool)
    | Setting(number: nat)

  datatype Local = Local(index: Option<nat>, held: Held, phase: Phase, exiting: bool, done: bool, began: nat)

  datatype State = State(width: nat, taken: seq<nat>, shared: U64, threads: map<Thread, Local>, ticks: nat) {
    function At(t: Thread): Local {
      if t in threads then threads[t] else Local(None, Fresh, Outside, false, false, 0)
    }
  }

  /** One access to the pool, or one move of the thread's own cells. */
  datatype Step =
    | Ask(t: Thread)
    | Load(t: Thread)
    | Swap(t: Thread, spurious: bool)
    | Remember(t: Thread, registered: bool)
    | GiveBack(t: Thread)
    | SetIndex(t: Thread)
    | Exit(t: Thread)
    | DropHeld(t: Thread)
    | End(t: Thread)

  function Init(width: nat): State {
    State(width, [0, 0, 0, 0], 0, map[], 0)
  }

  /** A claim looks at `wordNo` when the pool reaches it. */
  predicate InPool(s: State, wordNo: nat) {
    wordNo < WORDS && wordNo * WORD_BITS < s.width
  }

  function Free(s: State, wordNo: nat, bits: nat): nat {
    MaskedNot(bits, Pow2(UsableBits(s.width, wordNo)) - 1)
  }

  predicate Enabled(s: State, step: Step) {
    var l := s.At(step.t);
    && !l.done
    && match step
       case Ask(_) => l.phase.Outside? && l.index.None?
       case Load(_) => l.phase.AtWord?
       case Swap(_, _) => l.phase.Seen?
       // A thread running its destructors may be unable to register one
       // more; one whose own destructor has begun certainly is.
       case Remember(_, registered) =>
         l.phase.Claimed? && if registered then !l.held.Destroyed? else !l.phase.owned || l.exiting
       case GiveBack(_) => l.phase.Returning?
       case SetIndex(_) => l.phase.Setting?
       case Exit(_) => l.phase.Outside? && !l.exiting
       case DropHeld(_) => l.phase.Outside? && l.exiting && l.held.Live?
       case End(_) => l.phase.Outside? && l.exiting && !l.held.Live?
  }

  /** The swap finds the word as it was seen, with a bit free in it. */
  predicate Wins(s: State, step: Step)
    requires Enabled(s, step)
  {
    step.Swap? && !step.spurious &&
    var p := s.At(step.t).phase;
    p.wordNo < |s.taken| && s.taken[p.wordNo] == p.bits && Free(s, p.wordNo, p.bits) > 0
  }

  /** The claim ran out of words. */
  predicate Shares(s: State, step: Step)
    requires Enabled(s, step)
  {
    step.Load? && !InPool(s, s.At(step.t).phase.wordNo)
  }

  function Next(s: State, step: Step): Local
    requires Enabled(s, step) && s.width > 0 && |s.taken| == WORDS
  {
    var l := s.At(step.t);
    match step
    case Ask(_) => l.(phase := AtWord(0), began := s.ticks)
    case Load(_) =>
      if Shares(s, step) then l.(phase := Claimed(s.shared % s.width, false))
      else l.(phase := Seen(l.phase.wordNo, s.taken[l.phase.wordNo]))
    case Swap(_, _) =>
      var Seen(wordNo, bits) := l.phase;
      var free := Free(s, wordNo, bits);
      if free == 0 then l.(phase := AtWord(wordNo + 1))
      else if Wins(s, step) then l.(phase := Claimed(wordNo * WORD_BITS + TrailingZeros(free), true))
      else if wordNo < WORDS then l.(phase := Seen(wordNo, s.taken[wordNo]))
      else l
    case Remember(_, registered) =>
      var Claimed(number, owned) := l.phase;
      if !owned then l.(phase := Setting(number))
      else if registered then l.(held := Live(Some(number)), phase := Setting(number))
      else l.(phase := Returning(number, true))
    case GiveBack(_) => l.(phase := if l.phase.reuse then Setting(l.phase.number) else Outside)
    case SetIndex(_) => l.(index := Some(l.phase.number), phase := Outside)
    case Exit(_) => l.(exiting := true)
    case DropHeld(_) =>
      if l.held.number.None? then l.(held := Destroyed)
      else l.(held := Destroyed, index := None, phase := Returning(l.held.number.value, false))
    case End(_) => l.(done := true)
  }

  function TakenAfter(s: State, step: Step): seq<nat>
    requires Enabled(s, step) && |s.taken| == WORDS
  {
    var p := s.At(step.t).phase;
    if Wins(s, step) then s.taken[p.wordNo := With(p.bits, TrailingZeros(Free(s, p.wordNo, p.bits)))]
    else if step.GiveBack? then Cleared(s.taken, p.number)
    else s.taken
  }

  /** The bitmap with `number` given back; a number past it changes nothing. */
  function Cleared(taken: seq<nat>, number: nat): seq<nat> {
    if number / WORD_BITS < |taken| then
      taken[number / WORD_BITS := Without(taken[number / WORD_BITS], number % WORD_BITS)]
    else taken
  }

  function Apply(s: State, step: Step): State
    requires Enabled(s, step) && s.width > 0 && |s.taken| == WORDS
  {
    s.(threads := s.threads[step.t := Next(s, step)],
       taken := TakenAfter(s, step),
       shared := if Shares(s, step) then WrapAdd(s.shared, 1) else s.shared,
       ticks := s.ticks + 1)
  }

  ghost predicate Run(states: seq<State>, steps: seq<Step>) {
    && |states| == |steps| + 1
    && (exists width :: 0 < width <= MAX_WIDTH && states[0] == Init(width))
    && (forall i | 0 <= i < |states| :: states[i].width > 0 && |states[i].taken| == WORDS)
    && forall i | 0 <= i < |steps| :: Enabled(states[i], steps[i]) && states[i + 1] == Apply(states[i], steps[i])
  }

  // ----------------------------------------------------------- invariant

  /** The number a thread owns: one it has claimed and not yet given back. */
  function Owner(l: Local): Option<nat> {
    if l.phase.Claimed? && l.phase.owned then Some(l.phase.number)
    else if l.phase.Returning? then Some(l.phase.number)
    else if l.held.Live? then l.held.number
    else None
  }

  /** A thread's own cells agree with where it is. */
  predicate Sound(s: State, l: Local) {
    && (l.index.Some? ==> l.index.value < s.width)
    && (Owner(l).Some? ==> Owner(l).value < s.width)
    && (l.phase.Claimed? || l.phase.Setting? ==> l.phase.number < s.width)
    && (l.phase.Seen? ==> InPool(s, l.phase.wordNo))
    && (l.phase.AtWord? || l.phase.Seen? || l.phase.Claimed? || l.phase.Returning? ==>
          l.index.None? && (l.held.Live? ==> l.held.number.None?))
    && (l.phase.Returning? && !l.phase.reuse ==> l.held.Destroyed?)
    && (l.phase.Setting? ==> l.index.None? && (l.held.Live? && l.held.number.Some? ==> l.held.number.value == l.phase.number))
    && (l.phase.Outside? && l.held.Live? && l.held.number.Some? ==> l.index == l.held.number)
    && (l.done ==> l.phase.Outside? && !l.held.Live?)
  }

  ghost predicate Fits(s: State) {
    0 < s.width <= MAX_WIDTH && |s.taken| == WORDS
  }

  ghost predicate AllSound(s: State) {
    forall t | t in s.threads :: Sound(s, s.threads[t])
  }

  /** No two threads own one number. */
  ghost predicate OneOwnerEach(s: State) {
    forall t, u | t in s.threads && u in s.threads && t != u && Owner(s.threads[t]).Some? ::
      Owner(s.threads[t]) != Owner(s.threads[u])
  }

  ghost predicate IsOwned(s: State, n: nat) {
    exists t :: t in s.threads && Owner(s.threads[t]) == Some(n)
  }

  /** The set bits are exactly the numbers owned. */
  ghost predicate BitsAreOwners(s: State)
    requires |s.taken| == WORDS
  {
    forall n: nat | n < MAX_WIDTH :: Taken(s.taken, n) <==> IsOwned(s, n)
  }

  ghost predicate Inv(s: State) {
    Fits(s) && AllSound(s) && OneOwnerEach(s) && BitsAreOwners(s)
  }

  /** A won swap sets the number it claims, which was clear. */
  lemma WonSwap(s: State, step: Step)
    requires Fits(s) && AllSound(s) && Enabled(s, step) && Wins(s, step)
    ensures var p := s.At(step.t).phase;
            var number := p.wordNo * WORD_BITS + TrailingZeros(Free(s, p.wordNo, p.bits));
            && Next(s, step).phase == Claimed(number, true) && number < s.width
            && !Taken(s.taken, number)
            && |TakenAfter(s, step)| == WORDS
            && forall n: nat | n < MAX_WIDTH :: Taken(TakenAfter(s, step), n) <==> n == number || Taken(s.taken, n)
  {
    var p := s.At(step.t).phase;
    assert step.t in s.threads && InPool(s, p.wordNo);
    WonBit(s, p.wordNo, p.bits);
  }

  /** What a step does to the bitmap, number by number. */
  lemma StepOnBits(s: State, step: Step)
    requires Fits(s) && AllSound(s) && Enabled(s, step)
    ensures |TakenAfter(s, step)| == WORDS
    ensures Wins(s, step) ==>
      && Next(s, step).phase.Claimed? && Next(s, step).phase.number < s.width && !Taken(s.taken, Next(s, step).phase.number)
      && forall n: nat | n < MAX_WIDTH ::
           Taken(TakenAfter(s, step), n) <==> n == Next(s, step).phase.number || Taken(s.taken, n)
    ensures step.GiveBack? ==>
      forall n: nat | n < MAX_WIDTH ::
        Taken(TakenAfter(s, step), n) <==> n != s.At(step.t).phase.number && Taken(s.taken, n)
  {
    if Wins(s, step) {
      WonSwap(s, step);
    } else if step.GiveBack? {
      ClearedBit(s.taken, s.At(step.t).phase.number);
    }
  }

  lemma WonBit(s: State, wordNo: nat, bits: nat)
    requires Fits(s) && InPool(s, wordNo) && bits == s.taken[wordNo] && Free(s, wordNo, bits) > 0
    ensures var bit := TrailingZeros(Free(s, wordNo, bits));
            var number := wordNo * WORD_BITS + bit;
            var after := s.taken[wordNo := With(bits, bit)];
            && number < s.width && !Taken(s.taken, number)
            && forall n: nat | n < MAX_WIDTH :: Taken(after, n) <==> n == number || Taken(s.taken, n)
  {
    var bit := TrailingZeros(Free(s, wordNo, bits));
    LeastFree(bits, UsableBits(s.width, wordNo));
    SetNumber(s.taken, wordNo, bit);
  }

  lemma SetNumber(taken: seq<nat>, wordNo: nat, bit: nat)
    requires |taken| == WORDS && wordNo < WORDS && bit < WORD_BITS
    ensures Taken(taken, wordNo * WORD_BITS + bit) == Bit(taken[wordNo], bit)
    ensures forall n: nat | n < MAX_WIDTH ::
      Taken(taken[wordNo := With(taken[wordNo], bit)], n) <==> n == wordNo * WORD_BITS + bit || Taken(taken, n)
  {
    Split(wordNo, bit);
    forall n: nat | n < MAX_WIDTH
      ensures Taken(taken[wordNo := With(taken[wordNo], bit)], n) <==> n == wordNo * WORD_BITS + bit || Taken(taken, n)
    {
      SetOneNumber(taken, wordNo, bit, n);
    }
  }

  lemma SetOneNumber(taken: seq<nat>, wordNo: nat, bit: nat, n: nat)
    requires |taken| == WORDS && wordNo < WORDS && bit < WORD_BITS && n < MAX_WIDTH
    ensures Taken(taken[wordNo := With(taken[wordNo], bit)], n) <==> n == wordNo * WORD_BITS + bit || Taken(taken, n)
  {
    if n / WORD_BITS == wordNo {
      WithBit(taken[wordNo], bit, n % WORD_BITS);
      assert n == n / WORD_BITS * WORD_BITS + n % WORD_BITS;
    } else {
      Split(wordNo, bit);
    }
  }

  lemma ClearedBit(taken: seq<nat>, number: nat)
    requires |taken| == WORDS
    ensures |Cleared(taken, number)| == WORDS
    ensures forall n: nat | n < MAX_WIDTH :: Taken(Cleared(taken, number), n) <==> n != number && Taken(taken, n)
  {
    if number / WORD_BITS < WORDS {
      var w, b := number / WORD_BITS, number % WORD_BITS;
      forall n: nat | n < MAX_WIDTH ensures Taken(Cleared(taken, number), n) <==> n != number && Taken(taken, n) {
        WithoutBit(taken[w], b, n % WORD_BITS);
        assert n == n / WORD_BITS * WORD_BITS + n % WORD_BITS;
      }
    }
  }

  lemma StepKeepsSound(s: State, step: Step)
    requires Fits(s) && AllSound(s) && Enabled(s, step)
    ensures AllSound(Apply(s, step))
  {
    StepOnBits(s, step);
  }

  /** Ownership moves only by a won swap and by a give-back. */
  lemma StepOnOwner(s: State, step: Step)
    requires Fits(s) && AllSound(s) && Enabled(s, step)
    ensures Wins(s, step) ==> Owner(s.At(step.t)).None? && Owner(Next(s, step)) == Some(Next(s, step).phase.number)
    ensures step.GiveBack? ==> Owner(s.At(step.t)) == Some(s.At(step.t).phase.number) && Owner(Next(s, step)).None?
    ensures !Wins(s, step) && !step.GiveBack? ==> Owner(Next(s, step)) == Owner(s.At(step.t))
  {
  }

  lemma StepKeepsOwners(s: State, step: Step)
    requires Inv(s) && Enabled(s, step)
    ensures OneOwnerEach(Apply(s, step)) && BitsAreOwners(Apply(s, step))
  {
    var s' := Apply(s, step);
    StepOnBits(s, step);
    StepOnOwner(s, step);
    forall u | u in s.threads && u != step.t && Owner(s.threads[u]).Some?
      ensures Owner(s.threads[u]) != Owner(Next(s, step))
    {
      assert IsOwned(s, Owner(s.threads[u]).value);
    }
    forall n: nat | n < MAX_WIDTH ensures Taken(s'.taken, n) <==> IsOwned(s', n) {
      OwnedAfter(s, step, n);
    }
  }

  lemma OwnedAfter(s: State, step: Step, n: nat)
    requires Inv(s) && Enabled(s, step) && n < MAX_WIDTH
    ensures IsOwned(Apply(s, step), n) <==>
      Owner(Next(s, step)) == Some(n) || (IsOwned(s, n) && Owner(s.At(step.t)) != Some(n))
  {
    var s' := Apply(s, step);
    if IsOwned(s', n) {
      var t :| t in s'.threads && Owner(s'.threads[t]) == Some(n);
      if t != step.t {
        assert t in s.threads && Owner(s.threads[t]) == Some(n);
      }
    }
    if IsOwned(s, n) && Owner(s.At(step.t)) != Some(n) {
      var t :| t in s.threads && Owner(s.threads[t]) == Some(n);
      assert t in s'.threads && Owner(s'.threads[t]) == Some(n);
    }
    if Owner(Next(s, step)) == Some(n) {
      assert step.t in s'.threads && Owner(s'.threads[step.t]) == Some(n);
    }
  }

  lemma InitInv(width: nat)
    requires 0 < width <= MAX_WIDTH
    ensures Inv(Init(width))
  {
    forall n: nat | n < MAX_WIDTH ensures !Taken(Init(width).taken, n) {
      ZeroBit(n % WORD_BITS);
    }
  }

  lemma {:induction false} RunKeepsInv(states: seq<State>, steps: seq<Step>, i: nat)
    requires Run(states, steps) && i < |states|
    ensures Inv(states[i]) && states[i].ticks == i && states[i].width == states[0].width
  {
    if i == 0 {
      InitInv(states[0].width);
    } else {
      RunKeepsInv(states, steps, i - 1);
      StepOnBits(states[i - 1], steps[i - 1]);
      StepKeepsSound(states[i - 1], steps[i - 1]);
      StepKeepsOwners(states[i - 1], steps[i - 1]);
    }
  }

  // ------------------------------------------------------------- results

  /** Over every run the set bits are exactly the numbers owned, each by one
      thread: one live thread holding it, or one claim or give-back in
      flight. All are below the width. */
  lemma SetBitsAreOwnedOnce(states: seq<State>, steps: seq<Step>, i: nat, n: nat)
    requires Run(states, steps) && i < |states| && n < MAX_WIDTH
    ensures |states[i].taken| == WORDS
    ensures Taken(states[i].taken, n) <==> IsOwned(states[i], n)
    ensures IsOwned(states[i], n) ==> n < states[i].width
    ensures forall t, u | t in states[i].threads && u in states[i].threads
                          && Owner(states[i].threads[t]) == Owner(states[i].threads[u]) == Some(n) :: t == u
  {
    RunKeepsInv(states, steps, i);
  }

  /** The step that gives a number back leaves it neither held nor owned by
      the thread that gave it, and takes it from nobody else. The thread does
      not remember it as its own: an exit has cleared that before the number
      goes back. */
  lemma GivenBackIsNotKept(states: seq<State>, steps: seq<Step>, i: nat)
    requires Run(states, steps) && i < |steps| && steps[i].GiveBack?
    ensures states[i].At(steps[i].t).index.None? && states[i + 1].At(steps[i].t).index.None?
    ensures !states[i].At(steps[i].t).phase.reuse ==> states[i].At(steps[i].t).held.Destroyed?
    ensures var n := states[i].At(steps[i].t).phase.number;
            && states[i + 1].At(steps[i].t).held != Live(Some(n))
            && n < MAX_WIDTH && |states[i + 1].taken| == WORDS
            && !Taken(states[i + 1].taken, n) && !IsOwned(states[i + 1], n)
  {
    RunKeepsInv(states, steps, i);
    RunKeepsInv(states, steps, i + 1);
    StepOnBits(states[i], steps[i]);
  }

  /** A thread that has ended owns nothing. */
  lemma TheDeadOwnNothing(states: seq<State>, steps: seq<Step>, i: nat, t: Thread)
    requires Run(states, steps) && i < |states| && t in states[i].threads && states[i].threads[t].done
    ensures Owner(states[i].threads[t]).None?
  {
    RunKeepsInv(states, steps, i);
  }

  /** A thread's number, owned or shared, is below the width. */
  lemma NumbersAreBelowTheWidth(states: seq<State>, steps: seq<Step>, i: nat, t: Thread)
    requires Run(states, steps) && i < |states| && states[i].At(t).index.Some?
    ensures states[i].At(t).index.value < states[i].width
  {
    RunKeepsInv(states, steps, i);
  }

  /** The word `wordNo` held `bits` at some moment from `from` to `to`. */
  ghost predicate WasSeen(states: seq<State>, from: nat, to: nat, wordNo: nat, bits: nat) {
    exists m: nat :: from <= m <= to && m < |states| && wordNo < |states[m].taken| && states[m].taken[wordNo] == bits
  }

  /** Every bit the pool uses of `wordNo` was set at some moment from `from`
      to `to`. */
  ghost predicate WasFull(states: seq<State>, from: nat, to: nat, wordNo: nat) {
    exists m: nat :: from <= m <= to && m < |states| && wordNo < |states[m].taken|
                     && AllTaken(states[m].taken[wordNo], UsableBits(states[m].width, wordNo))
  }

  /** How far a claim has looked. */
  function Passed(p: Phase): nat {
    match p
    case AtWord(w) => w
    case Seen(w, _) => w
    case _ => 0
  }

  ghost predicate Looked(states: seq<State>, i: nat, l: Local) {
    && l.began <= i
    && (l.phase.Seen? ==> WasSeen(states, l.began, i, l.phase.wordNo, l.phase.bits))
    && forall w: nat | w < Passed(l.phase) && w < WORDS :: WasFull(states, l.began, i, w)
  }

  lemma LaterStill(states: seq<State>, i: nat, j: nat, l: Local)
    requires i <= j && Looked(states, i, l)
    ensures Looked(states, j, l)
  {
    forall w: nat | w < Passed(l.phase) && w < WORDS ensures WasFull(states, l.began, j, w) {
      assert WasFull(states, l.began, i, w);
    }
  }

  lemma {:induction false} ClaimsLook(states: seq<State>, steps: seq<Step>, i: nat, t: Thread)
    requires Run(states, steps) && i < |states|
    ensures Looked(states, i, states[i].At(t))
  {
    if i > 0 {
      var s, step := states[i - 1], steps[i - 1];
      ClaimsLook(states, steps, i - 1, t);
      RunKeepsInv(states, steps, i - 1);
      LaterStill(states, i - 1, i, s.At(t));
      if t != step.t {
        OthersStay(s, step, t);
      } else if step.Swap? {
        SeenInPool(s, t);
        LooksOn(states, steps, i, t);
      } else {
        PlainMoves(s, step);
        PlainLooks(states, i, s.At(t), states[i].At(t));
      }
    }
  }

  lemma OthersStay(s: State, step: Step, t: Thread)
    requires Enabled(s, step) && s.width > 0 && |s.taken| == WORDS && t != step.t
    ensures Apply(s, step).At(t) == s.At(t)
  {
  }

  lemma SeenInPool(s: State, t: Thread)
    requires AllSound(s) && s.At(t).phase.Seen?
    ensures InPool(s, s.At(t).phase.wordNo)
  {
    assert t in s.threads;
  }

  /** Any step but a swap begins a claim, sees the word it is at, or is no part
      of looking. */
  lemma PlainMoves(s: State, step: Step)
    requires Enabled(s, step) && s.width > 0 && |s.taken| == WORDS && !step.Swap?
    ensures var l, next := s.At(step.t), Apply(s, step).At(step.t);
      || (l.phase.AtWord? && l.phase.wordNo < WORDS && next.began == l.began
          && next.phase == Seen(l.phase.wordNo, s.taken[l.phase.wordNo]))
      || (Passed(next.phase) == 0 && !next.phase.Seen? && (next.began == l.began || next.began == s.ticks))
  {
  }

  lemma PlainLooks(states: seq<State>, i: nat, l: Local, next: Local)
    requires 0 < i < |states| && Looked(states, i, l) && |states[i - 1].taken| == WORDS
    requires
      || (l.phase.AtWord? && l.phase.wordNo < WORDS && next.began == l.began && l.began <= i - 1
          && next.phase == Seen(l.phase.wordNo, states[i - 1].taken[l.phase.wordNo]))
      || (Passed(next.phase) == 0 && !next.phase.Seen? && next.began <= i)
    ensures Looked(states, i, next)
  {
    if next.phase.Seen? {
      var w := l.phase.wordNo;
      assert states[i - 1].taken[w] == next.phase.bits;
      assert WasSeen(states, next.began, i, w, next.phase.bits);
    }
  }

  lemma LooksOn(states: seq<State>, steps: seq<Step>, i: nat, t: Thread)
    requires Run(states, steps) && 0 < i < |states| && steps[i - 1].Swap? && steps[i - 1].t == t
    requires Looked(states, i, states[i - 1].At(t)) && InPool(states[i - 1], states[i - 1].At(t).phase.wordNo)
    requires states[i - 1].width == states[0].width
    ensures Looked(states, i, states[i].At(t))
  {
    var s, l, next := states[i - 1], states[i - 1].At(t), states[i].At(t);
    var wordNo := l.phase.wordNo;
    SwapMoves(s, steps[i - 1]);
    if next.phase.AtWord? {
      SeenFull(states, steps, i, l);
    } else if next.phase.Seen? {
      assert states[i - 1].taken[wordNo] == next.phase.bits;
      assert WasSeen(states, l.began, i, wordNo, next.phase.bits);
    }
    MovedOn(states, i, l, next);
  }

  /** A swap passes a full word, gets a bit, or sees the word again. */
  lemma SwapMoves(s: State, step: Step)
    requires Enabled(s, step) && s.width > 0 && |s.taken| == WORDS && step.Swap?
    requires s.At(step.t).phase.wordNo < WORDS
    ensures var l, next := s.At(step.t), Apply(s, step).At(step.t);
      var Seen(wordNo, bits) := l.phase;
      && next.began == l.began
      && (|| (next.phase == AtWord(wordNo + 1) && Free(s, wordNo, bits) == 0)
          || next.phase.Claimed?
          || next.phase == Seen(wordNo, s.taken[wordNo]))
  {
  }

  lemma MovedOn(states: seq<State>, i: nat, l: Local, next: Local)
    requires Looked(states, i, l) && l.phase.Seen? && next.began == l.began
    requires
      || (next.phase == AtWord(l.phase.wordNo + 1) && WasFull(states, l.began, i, l.phase.wordNo))
      || next.phase.Claimed?
      || (next.phase.Seen? && next.phase.wordNo == l.phase.wordNo
          && WasSeen(states, l.began, i, next.phase.wordNo, next.phase.bits))
    ensures Looked(states, i, next)
  {
  }

  lemma SeenFull(states: seq<State>, steps: seq<Step>, i: nat, l: Local)
    requires Run(states, steps) && i < |states| && l.phase.Seen?
    requires WasSeen(states, l.began, i, l.phase.wordNo, l.phase.bits)
    requires MaskedNot(l.phase.bits, Pow2(UsableBits(states[0].width, l.phase.wordNo)) - 1) == 0
    ensures WasFull(states, l.began, i, l.phase.wordNo)
  {
    var Seen(wordNo, bits) := l.phase;
    FullWord(bits, UsableBits(states[0].width, wordNo));
    var m: nat :| l.began <= m <= i && m < |states| && wordNo < |states[m].taken| && states[m].taken[wordNo] == bits;
    RunKeepsInv(states, steps, m);
  }

  /** A shared number is handed out only after every word of the pool was full
      at some moment of the call. */
  lemma SharedMeansEveryWordWasFull(states: seq<State>, steps: seq<Step>, i: nat, wordNo: nat)
    requires Run(states, steps) && i < |steps| && Shares(states[i], steps[i])
    requires InPool(states[i], wordNo)
    ensures WasFull(states, states[i].At(steps[i].t).began, i, wordNo)
  {
    ClaimsLook(states, steps, i, steps[i].t);
    RunKeepsInv(states, steps, i);
    assert !InPool(states[i], states[i].At(steps[i].t).phase.wordNo);
  }

  // ------------------------------------------------------- what a call gets

  lemma CallStep(s: State, step: Step)
    requires Enabled(s, step) && s.width > 0 && |s.taken| == WORDS
    ensures var l, next := s.At(step.t), Next(s, step);
      next.phase.Outside? && !l.phase.Outside? ==>
        || (l.phase.Setting? && next.index == Some(l.phase.number))
        || (l.phase.Returning? && !l.phase.reuse && next.held == l.held)
  {
  }

  /** A call ends only by giving the thread the number it claimed; the one other
      way out is the exit that has given its number back. */
  lemma CallsEndWithANumber(states: seq<State>, steps: seq<Step>, i: nat, t: Thread)
    requires Run(states, steps) && i < |steps|
    requires !states[i].At(t).phase.Outside? && states[i + 1].At(t).phase.Outside?
    ensures states[i + 1].At(t).index.Some? || states[i + 1].At(t).held.Destroyed?
    ensures states[i].At(t).phase.Setting? ==> states[i + 1].At(t).index == Some(states[i].At(t).phase.number)
    ensures states[i].At(t).phase.Setting? || (states[i].At(t).phase.Returning? && !states[i].At(t).phase.reuse)
  {
    RunKeepsInv(states, steps, i);
    if t != steps[i].t {
      OthersStay(states[i], steps[i], t);
    } else {
      CallStep(states[i], steps[i]);
      if states[i].At(t).phase.Returning? {
        ReturningIsExiting(states[i], t);
      }
    }
  }

  lemma ReturningIsExiting(s: State, t: Thread)
    requires AllSound(s) && s.At(t).phase.Returning? && !s.At(t).phase.reuse
    ensures s.At(t).held.Destroyed?
  {
    assert t in s.threads;
  }

  // ------------------------------------------------------------ the cursor

  /** How many of the first `i` steps claimed a shared number. */
  ghost function SharedClaims(states: seq<State>, steps: seq<Step>, i: nat): nat
    requires Run(states, steps) && i <= |steps|
  {
    if i == 0 then 0
    else SharedClaims(states, steps, i - 1) + if Shares(states[i - 1], steps[i - 1]) then 1 else 0
  }

  lemma CursorStep(s: State, step: Step)
    requires Enabled(s, step) && s.width > 0 && |s.taken| == WORDS
    ensures Apply(s, step).shared == if Shares(s, step) then WrapAdd(s.shared, 1) else s.shared
    ensures Shares(s, step) ==> Apply(s, step).At(step.t).phase == Claimed(s.shared % s.width, false)
  {
  }

  lemma {:induction false} CursorCountsSharedClaims(states: seq<State>, steps: seq<Step>, i: nat)
    requires Run(states, steps) && i <= |steps|
    ensures states[i].shared == SharedClaims(states, steps, i) % TWO_TO_64
  {
    if i > 0 {
      CursorCountsSharedClaims(states, steps, i - 1);
      CursorStep(states[i - 1], steps[i - 1]);
      WrappedAdd(states[i - 1].shared, SharedClaims(states, steps, i - 1), 1);
    }
  }

  /** The shared claims of a run, whatever happens in between, get the numbers of
      the round robin in order, each one owned by nobody for it. */
  lemma SharedClaimsGoRound(states: seq<State>, steps: seq<Step>, i: nat)
    requires Run(states, steps) && i < |steps| && Shares(states[i], steps[i])
    ensures states[i + 1].At(steps[i].t).phase ==
      Claimed(SharedClaims(states, steps, i) % TWO_TO_64 % states[0].width, false)
  {
    RunKeepsInv(states, steps, i);
    CursorCountsSharedClaims(states, steps, i);
    CursorStep(states[i], steps[i]);
  }
}
