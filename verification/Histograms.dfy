/** One histogram kept once per shard: samples recorded by any threads at once,
    and the snapshot that merges the shards. */
module Histograms {
  import opened Words
  import opened Shards
  import Tickers

  datatype Hist = Hist(count: U64, sum: U64, min: U64, max: U64)

  const EMPTY := Hist(0, 0, U64_MAX, 0)

  function Recorded(h: Hist, value: U64): Hist {
    Hist(WrapAdd(h.count, 1), SatAdd(h.sum, value), Min(h.min, value), Max(h.max, value))
  }

  function Merge(a: Hist, b: Hist): Hist {
    Hist(WrapAdd(a.count, b.count), SatAdd(a.sum, b.sum), Min(a.min, b.min), Max(a.max, b.max))
  }

  function Merged(shards: seq<Hist>): Hist {
    if shards == [] then EMPTY else Merge(Merged(shards[..|shards| - 1]), shards[|shards| - 1])
  }

  /** What a snapshot says of the merged shards. */
  function Reported(h: Hist): Hist {
    if h.count == 0 then Hist(0, 0, 0, 0) else if h.min == U64_MAX then h.(min := 0) else h
  }

  class HistogramData {
    var count: U64
    var sum: U64
    var min: U64
    var max: U64

    ghost function Value(): Hist
      reads this
    {
      Hist(count, sum, min, max)
    }

    constructor ()
      ensures Value() == EMPTY
    {
      count, sum, min, max := 0, 0, U64_MAX, 0;
    }

    /** `flukes` is how often the weak swap of the sum fails for no reason. The
        steps it skips would have changed nothing. */
    method Record(value: U64, flukes: nat)
      modifies this
      ensures Value() == Recorded(old(Value()), value)
    {
      count := WrapAdd(count, 1);
      if value != 0 {
        var seen, left, swapped := sum, flukes, false;
        while !swapped
          invariant count == WrapAdd(old(count), 1) && min == old(min) && max == old(max)
          invariant seen == old(sum)
          invariant sum == if swapped then SatAdd(old(sum), value) else old(sum)
          decreases !swapped, left
        {
          if left == 0 {
            sum, swapped := SatAdd(seen, value), true;
          } else {
            seen, left := sum, left - 1;
          }
        }
      }
      if value < min {
        min := Min(min, value);
      }
      if value > max {
        max := Max(max, value);
      }
    }

    method FoldInto(acc: Hist) returns (r: Hist)
      ensures r == Merge(acc, Value())
    {
      r := Hist(WrapAdd(acc.count, count), SatAdd(acc.sum, sum), Min(acc.min, min), Max(acc.max, max));
    }

    method Clear()
      modifies this
      ensures Value() == EMPTY
    {
      count, sum, min, max := 0, 0, U64_MAX, 0;
    }
  }

  ghost function ValuesOf(shards: seq<HistogramData>): seq<Hist>
    reads shards
  {
    seq(|shards|, k requires 0 <= k < |shards| reads shards => shards[k].Value())
  }

  method Snapshot(shards: seq<HistogramData>) returns (r: Hist)
    ensures r == Reported(Merged(ValuesOf(shards)))
  {
    var merged := EMPTY;
    for k := 0 to |shards|
      invariant merged == Merged(ValuesOf(shards)[..k])
    {
      assert ValuesOf(shards)[..k + 1][..k] == ValuesOf(shards)[..k];
      merged := shards[k].FoldInto(merged);
    }
    assert ValuesOf(shards)[..|shards|] == ValuesOf(shards);
    if merged.count == 0 {
      return Hist(0, 0, 0, 0);
    }
    r := merged;
    if merged.min == U64_MAX {
      r := merged.(min := 0);
    }
  }

  // -------------------------------------------- recorders beside each other

  /** Where a recorder stands: its next atomic step. */
  datatype Pc = LoadSum | SwapSum(seen: U64) | LoadMin | LowerMin | LoadMax | RaiseMax | Done

  datatype Recorder = Recorder(shard: nat, value: U64, pc: Pc)

  /** `recs` is every sample since the last reset. */
  datatype State = State(shards: seq<Hist>, recs: seq<Recorder>)

  datatype Step = Begin(shard: nat, value: U64) | Go(r: nat, fluke: bool) | Reset

  predicate Quiet(s: State) {
    forall i | 0 <= i < |s.recs| :: s.recs[i].pc.Done?
  }

  predicate Enabled(s: State, step: Step) {
    match step
    case Begin(shard, _) => shard < |s.shards|
    case Go(r, _) => r < |s.recs| && !s.recs[r].pc.Done? && s.recs[r].shard < |s.shards|
    case Reset => Quiet(s)
  }

  function NextPc(h: Hist, rec: Recorder, fluke: bool): Pc {
    match rec.pc
    case LoadSum => SwapSum(h.sum)
    case SwapSum(seen) => if h.sum == seen && !fluke then LoadMin else SwapSum(h.sum)
    case LoadMin => if rec.value < h.min then LowerMin else LoadMax
    case LowerMin => LoadMax
    case LoadMax => if rec.value > h.max then RaiseMax else Done
    case RaiseMax => Done
    case Done => Done
  }

  function NextHist(h: Hist, rec: Recorder, fluke: bool): Hist {
    match rec.pc
    case SwapSum(seen) => if h.sum == seen && !fluke then h.(sum := SatAdd(seen, rec.value)) else h
    case LowerMin => h.(min := Min(h.min, rec.value))
    case RaiseMax => h.(max := Max(h.max, rec.value))
    case _ => h
  }

  function Apply(s: State, step: Step): State
    requires Enabled(s, step)
  {
    match step
    case Begin(shard, value) =>
      var h := s.shards[shard];
      State(s.shards[shard := h.(count := WrapAdd(h.count, 1))],
            s.recs + [Recorder(shard, value, if value != 0 then LoadSum else LoadMin)])
    case Go(r, fluke) =>
      var rec := s.recs[r];
      var h := s.shards[rec.shard];
      State(s.shards[rec.shard := NextHist(h, rec, fluke)], s.recs[r := rec.(pc := NextPc(h, rec, fluke))])
    case Reset => State(seq(|s.shards|, _ => EMPTY), [])
  }

  ghost predicate Run(states: seq<State>, steps: seq<Step>) {
    && |states| == |steps| + 1
    && states[0].recs == [] && (forall k | 0 <= k < |states[0].shards| :: states[0].shards[k] == EMPTY)
    && forall i | 0 <= i < |steps| :: Enabled(states[i], steps[i]) && states[i + 1] == Apply(states[i], steps[i])
  }

  // ----------------------------------------------------------- invariant

  predicate Summed(pc: Pc) {
    !pc.LoadSum? && !pc.SwapSum?
  }

  predicate Lowered(pc: Pc) {
    pc.LoadMax? || pc.RaiseMax? || pc.Done?
  }

  ghost function Ones(recs: seq<Recorder>): seq<Add> {
    seq(|recs|, i requires 0 <= i < |recs| => Add(recs[i].shard, 1))
  }

  ghost function SumsIn(recs: seq<Recorder>): seq<Add> {
    seq(|recs|, i requires 0 <= i < |recs| => Add(recs[i].shard, AddedSo(recs[i])))
  }

  ghost predicate Counts(s: State) {
    forall k | 0 <= k < |s.shards| :: s.shards[k].count == Share(Ones(s.recs), k) % TWO_TO_64
  }

  ghost predicate Sums(s: State) {
    forall k | 0 <= k < |s.shards| :: s.shards[k].sum == Min(U64_MAX, Share(SumsIn(s.recs), k))
  }

  ghost predicate Bounds(s: State) {
    forall i | 0 <= i < |s.recs| ::
      && s.recs[i].shard < |s.shards|
      && (Lowered(s.recs[i].pc) ==> s.shards[s.recs[i].shard].min <= s.recs[i].value)
      && (s.recs[i].pc.Done? ==> s.shards[s.recs[i].shard].max >= s.recs[i].value)
  }

  ghost predicate Sampled(recs: seq<Recorder>, k: nat, value: U64) {
    exists i :: 0 <= i < |recs| && recs[i].shard == k && recs[i].value == value
  }

  ghost predicate Attained(s: State) {
    forall k | 0 <= k < |s.shards| ::
      && (s.shards[k].min == U64_MAX || Sampled(s.recs, k, s.shards[k].min))
      && (s.shards[k].max == 0 || Sampled(s.recs, k, s.shards[k].max))
  }

  ghost predicate Inv(s: State) {
    Counts(s) && Sums(s) && Bounds(s) && Attained(s)
  }

  lemma StepKeepsCounts(s: State, step: Step)
    requires Counts(s) && Enabled(s, step) && !step.Reset?
    ensures Counts(Apply(s, step))
  {
    var t := Apply(s, step);
    if step.Go? {
      assert Ones(t.recs) == Ones(s.recs);
    } else {
      var one := Add(step.shard, 1);
      assert Ones(t.recs) == Ones(s.recs) + [one];
      forall k | 0 <= k < |t.shards| ensures t.shards[k].count == Share(Ones(t.recs), k) % TWO_TO_64 {
        ShareGrows(Ones(s.recs), one, k);
        Tickers.WordGrows(s.shards[k].count, Share(Ones(s.recs), k), one, k);
      }
    }
  }

  /** What a recorder has added to its shard's sum. */
  function AddedSo(rec: Recorder): U64 {
    if Summed(rec.pc) then rec.value else 0
  }

  lemma BeginKeepsSums(s: State, step: Step)
    requires Sums(s) && Enabled(s, step) && step.Begin?
    ensures Sums(Apply(s, step))
  {
    var t := Apply(s, step);
    var rec := t.recs[|s.recs|];
    assert SumsIn(t.recs) == SumsIn(s.recs) + [Add(rec.shard, AddedSo(rec))];
    forall k | 0 <= k < |t.shards| ensures t.shards[k].sum == Min(U64_MAX, Share(SumsIn(t.recs), k)) {
      ShareGrows(SumsIn(s.recs), Add(rec.shard, AddedSo(rec)), k);
    }
  }

  lemma GoKeepsSums(s: State, step: Step)
    requires Sums(s) && Enabled(s, step) && step.Go?
    ensures Sums(Apply(s, step))
  {
    var t, r := Apply(s, step), step.r;
    var now := AddedSo(t.recs[r]);
    assert SumsIn(t.recs) == SumsIn(s.recs)[r := Add(SumsIn(s.recs)[r].shard, now)];
    forall k | 0 <= k < |t.shards| ensures t.shards[k].sum == Min(U64_MAX, Share(SumsIn(t.recs), k)) {
      ChangedShare(SumsIn(s.recs), r, now, k);
    }
  }

  lemma StepKeepsBounds(s: State, step: Step)
    requires Bounds(s) && Enabled(s, step)
    ensures Bounds(Apply(s, step))
  {
  }

  lemma StepKeepsAttained(s: State, step: Step)
    requires Attained(s) && Enabled(s, step)
    ensures Attained(Apply(s, step))
  {
    var t := Apply(s, step);
    if !step.Reset? {
      forall k: nat, value: U64 | Sampled(s.recs, k, value) ensures Sampled(t.recs, k, value) {
        var i :| 0 <= i < |s.recs| && s.recs[i].shard == k && s.recs[i].value == value;
        assert t.recs[i].shard == k && t.recs[i].value == value;
      }
    }
    if step.Go? {
      var rec := t.recs[step.r];
      assert Sampled(t.recs, rec.shard, rec.value);
    }
  }

  lemma StepKeepsInv(s: State, step: Step)
    requires Inv(s) && Enabled(s, step)
    ensures Inv(Apply(s, step))
  {
    StepKeepsBounds(s, step);
    StepKeepsAttained(s, step);
    if !step.Reset? {
      StepKeepsCounts(s, step);
    }
    match step
    case Begin(_, _) => BeginKeepsSums(s, step);
    case Go(_, _) => GoKeepsSums(s, step);
    case Reset =>
  }

  lemma {:induction false} RunKeepsInv(states: seq<State>, steps: seq<Step>, i: nat)
    requires Run(states, steps) && i < |states|
    ensures Inv(states[i])
  {
    if i > 0 {
      RunKeepsInv(states, steps, i - 1);
      StepKeepsInv(states[i - 1], steps[i - 1]);
    }
  }

  // -------------------------------------------------------------- merging

  lemma {:induction false} MergedCount(shards: seq<Hist>, ones: seq<Add>, n: nat)
    requires n <= |shards| && forall k | 0 <= k < n :: shards[k].count == Share(ones, k) % TWO_TO_64
    ensures Merged(shards[..n]).count == Shares(ones, n) % TWO_TO_64
  {
    if n > 0 {
      assert shards[..n][..n - 1] == shards[..n - 1];
      MergedCount(shards, ones, n - 1);
      WrapSum(Shares(ones, n - 1), Share(ones, n - 1));
    }
  }

  lemma {:induction false} MergedSum(shards: seq<Hist>, sums: seq<Add>, n: nat)
    requires n <= |shards| && forall k | 0 <= k < n :: shards[k].sum == Min(U64_MAX, Share(sums, k))
    ensures Merged(shards[..n]).sum == Min(U64_MAX, Shares(sums, n))
  {
    if n > 0 {
      assert shards[..n][..n - 1] == shards[..n - 1];
      MergedSum(shards, sums, n - 1);
    }
  }

  lemma {:induction false} MergedBounds(shards: seq<Hist>, n: nat)
    requires n <= |shards|
    ensures forall k | 0 <= k < n :: Merged(shards[..n]).min <= shards[k].min && Merged(shards[..n]).max >= shards[k].max
    ensures Merged(shards[..n]).min == U64_MAX || exists k :: 0 <= k < n && shards[k].min == Merged(shards[..n]).min
    ensures Merged(shards[..n]).max == 0 || exists k :: 0 <= k < n && shards[k].max == Merged(shards[..n]).max
  {
    if n > 0 {
      assert shards[..n][..n - 1] == shards[..n - 1];
      MergedBounds(shards, n - 1);
      assert shards[n - 1].min == Merged(shards[..n]).min || Merged(shards[..n - 1]).min == Merged(shards[..n]).min;
      assert shards[n - 1].max == Merged(shards[..n]).max || Merged(shards[..n - 1]).max == Merged(shards[..n]).max;
    }
  }

  // -------------------------------------------------------------- results

  /** Every sample, as an amount. */
  ghost function Samples(recs: seq<Recorder>): seq<Add> {
    seq(|recs|, i requires 0 <= i < |recs| => Add(recs[i].shard, recs[i].value))
  }

  ghost predicate IsLeast(recs: seq<Recorder>, value: U64) {
    (exists i :: 0 <= i < |recs| && recs[i].value == value) && forall i | 0 <= i < |recs| :: value <= recs[i].value
  }

  ghost predicate IsGreatest(recs: seq<Recorder>, value: U64) {
    (exists i :: 0 <= i < |recs| && recs[i].value == value) && forall i | 0 <= i < |recs| :: value >= recs[i].value
  }

  lemma {:induction false} TotalOfOnes(recs: seq<Recorder>)
    ensures Total(Ones(recs)) == |recs|
  {
    if recs != [] {
      assert Ones(recs)[..|recs| - 1] == Ones(recs[..|recs| - 1]);
      TotalOfOnes(recs[..|recs| - 1]);
    }
  }

  lemma QuietSums(s: State)
    requires Inv(s) && Quiet(s)
    ensures Merged(s.shards).count == |s.recs| % TWO_TO_64
    ensures Merged(s.shards).sum == Min(U64_MAX, Total(Samples(s.recs)))
  {
    var n := |s.shards|;
    assert s.shards[..n] == s.shards;
    MergedCount(s.shards, Ones(s.recs), n);
    SharesMakeTheTotal(Ones(s.recs), n);
    TotalOfOnes(s.recs);
    assert SumsIn(s.recs) == Samples(s.recs);
    MergedSum(s.shards, SumsIn(s.recs), n);
    SharesMakeTheTotal(Samples(s.recs), n);
  }

  lemma QuietBounds(s: State)
    requires Inv(s) && Quiet(s) && s.recs != []
    ensures Merged(s.shards).min == U64_MAX || IsLeast(s.recs, Merged(s.shards).min)
    ensures forall i | 0 <= i < |s.recs| :: Merged(s.shards).min <= s.recs[i].value
    ensures IsGreatest(s.recs, Merged(s.shards).max)
  {
    var m := Merged(s.shards);
    QuietCovers(s);
    QuietAttains(s);
    if m.max == 0 {
      assert s.recs[0].value == 0;
    }
  }

  lemma QuietCovers(s: State)
    requires Bounds(s) && Quiet(s)
    ensures forall i | 0 <= i < |s.recs| :: Merged(s.shards).min <= s.recs[i].value <= Merged(s.shards).max
  {
    assert s.shards[..|s.shards|] == s.shards;
    MergedBounds(s.shards, |s.shards|);
    forall i | 0 <= i < |s.recs| ensures Merged(s.shards).min <= s.recs[i].value <= Merged(s.shards).max {
      var k := s.recs[i].shard;
      assert s.shards[k].min <= s.recs[i].value <= s.shards[k].max;
    }
  }

  lemma QuietAttains(s: State)
    requires Attained(s)
    ensures var m := Merged(s.shards); m.min == U64_MAX || exists i :: 0 <= i < |s.recs| && s.recs[i].value == m.min
    ensures var m := Merged(s.shards); m.max == 0 || exists i :: 0 <= i < |s.recs| && s.recs[i].value == m.max
  {
    var m := Merged(s.shards);
    assert s.shards[..|s.shards|] == s.shards;
    MergedBounds(s.shards, |s.shards|);
    if m.min != U64_MAX {
      var k :| 0 <= k < |s.shards| && s.shards[k].min == m.min;
      assert Sampled(s.recs, k, m.min);
    }
    if m.max != 0 {
      var k :| 0 <= k < |s.shards| && s.shards[k].max == m.max;
      assert Sampled(s.recs, k, m.max);
    }
  }

  /** With no recorder running a snapshot is exact over every interleaving that
      led there: every sample counted, modulo 2^64, and summed, saturating, and
      the true maximum. Its minimum is the true one exactly when some sample
      was below 2^64 - 1. */
  lemma QuietSnapshotIsExact(states: seq<State>, steps: seq<Step>, j: nat)
    requires Run(states, steps) && j < |states| && Quiet(states[j])
    ensures var recs, r := states[j].recs, Reported(Merged(states[j].shards));
      && r.count == |recs| % TWO_TO_64
      && (r.count == 0 ==> r == Hist(0, 0, 0, 0))
      && (r.count != 0 ==>
            && r.sum == Min(U64_MAX, Total(Samples(recs)))
            && IsGreatest(recs, r.max)
            && (IsLeast(recs, r.min) <==> exists i :: 0 <= i < |recs| && recs[i].value < U64_MAX))
  {
    var s := states[j];
    RunKeepsInv(states, steps, j);
    QuietSums(s);
    if s.recs != [] {
      QuietBounds(s);
    }
  }

  lemma Extended(states: seq<State>, steps: seq<Step>, step: Step) returns (more: seq<State>, most: seq<Step>)
    requires Run(states, steps) && Enabled(states[|steps|], step)
    ensures Run(more, most) && most == steps + [step] && more[|most|] == Apply(states[|steps|], step)
  {
    more, most := states + [Apply(states[|steps|], step)], steps + [step];
  }

  /** A histogram of nothing but the largest value reports a minimum of 0: the
      run that records it, on one shard, to its end. */
  lemma TheLargestSampleReadsAsZero() returns (states: seq<State>, steps: seq<Step>)
    ensures Run(states, steps) && Quiet(states[|steps|])
    ensures states[|steps|].recs == [Recorder(0, U64_MAX, Done)]
    ensures Reported(Merged(states[|steps|].shards)) == Hist(1, U64_MAX, 0, U64_MAX) && !IsLeast(states[|steps|].recs, 0)
  {
    states, steps := LargestSummed();
    states, steps := Extended(states, steps, Go(0, false));
    states, steps := Extended(states, steps, Go(0, false));
    states, steps := Extended(states, steps, Go(0, false));
    var s := states[|steps|];
    assert s.shards == [Hist(1, U64_MAX, U64_MAX, U64_MAX)];
    assert s.shards[..0] == [];
    assert Merged(s.shards) == Merge(EMPTY, s.shards[0]);
    assert s.recs[0].value == U64_MAX;
  }

  lemma LargestSummed() returns (states: seq<State>, steps: seq<Step>)
    ensures Run(states, steps)
    ensures states[|steps|] == State([Hist(1, U64_MAX, U64_MAX, 0)], [Recorder(0, U64_MAX, LoadMin)])
  {
    states, steps := [State([EMPTY], [])], [];
    states, steps := Extended(states, steps, Begin(0, U64_MAX));
    states, steps := Extended(states, steps, Go(0, false));
    states, steps := Extended(states, steps, Go(0, false));
  }

  // ------------------------------------------------ one after another

  /** Samples recorded one after another in an empty histogram. */
  function RecordedAll(values: seq<U64>): Hist {
    if values == [] then EMPTY else Recorded(RecordedAll(values[..|values| - 1]), values[|values| - 1])
  }

  ghost function SumOf(values: seq<U64>): nat {
    if values == [] then 0 else SumOf(values[..|values| - 1]) + values[|values| - 1]
  }

  lemma {:induction false} RecordedAllAreCounted(values: seq<U64>)
    ensures RecordedAll(values).count == |values| % TWO_TO_64
    ensures RecordedAll(values).sum == Min(U64_MAX, SumOf(values))
  {
    if values != [] {
      RecordedAllAreCounted(values[..|values| - 1]);
      WrapSum(|values| - 1, 1);
    }
  }

  lemma {:induction false} RecordedAllAreBounded(values: seq<U64>)
    ensures forall i | 0 <= i < |values| :: RecordedAll(values).min <= values[i] <= RecordedAll(values).max
    ensures values == [] ==> RecordedAll(values) == EMPTY
    ensures values != [] ==> RecordedAll(values).min in values && RecordedAll(values).max in values
  {
    if values != [] {
      var before, last := values[..|values| - 1], values[|values| - 1];
      RecordedAllAreBounded(before);
      assert last in values && forall v | v in before :: v in values;
      if before == [] {
        assert RecordedAll(values) == Recorded(EMPTY, last);
      }
    }
  }

  /** Any samples, recorded one after another in one histogram: it has their
      number modulo 2^64, their sum as far as a word goes, and the least and the
      greatest of them. */
  method RecordAll(values: seq<U64>, flukes: nat) returns (h: Hist)
    ensures h.count == |values| % TWO_TO_64 && h.sum == Min(U64_MAX, SumOf(values))
    ensures forall i | 0 <= i < |values| :: h.min <= values[i] <= h.max
    ensures if values == [] then h.min == U64_MAX && h.max == 0 else h.min in values && h.max in values
  {
    var data := new HistogramData();
    for k := 0 to |values|
      invariant data.Value() == RecordedAll(values[..k])
    {
      assert values[..k + 1][..k] == values[..k];
      data.Record(values[k], flukes);
    }
    assert values[..|values|] == values;
    RecordedAllAreCounted(values);
    RecordedAllAreBounded(values);
    h := Hist(data.count, data.sum, data.min, data.max);
  }

  lemma SumAlone(states: seq<State>, steps: seq<Step>, shard: nat, value: U64) returns (more: seq<State>, most: seq<Step>)
    requires Run(states, steps) && shard < |states[|steps|].shards|
    ensures Run(more, most)
    ensures var s, h := states[|steps|], states[|steps|].shards[shard];
      more[|most|] == State(
        s.shards[shard := h.(count := WrapAdd(h.count, 1), sum := SatAdd(h.sum, value))],
        s.recs + [Recorder(shard, value, LoadMin)])
  {
    var r := |states[|steps|].recs|;
    more, most := Extended(states, steps, Begin(shard, value));
    if value != 0 {
      more, most := Extended(more, most, Go(r, false));
      more, most := Extended(more, most, Go(r, false));
    }
  }

  lemma MinAlone(states: seq<State>, steps: seq<Step>, r: nat) returns (more: seq<State>, most: seq<Step>)
    requires Run(states, steps) && Enabled(states[|steps|], Go(r, false)) && states[|steps|].recs[r].pc.LoadMin?
    ensures Run(more, most)
    ensures var s, rec := states[|steps|], states[|steps|].recs[r];
      var h := s.shards[rec.shard];
      more[|most|] == State(s.shards[rec.shard := h.(min := Min(h.min, rec.value))], s.recs[r := rec.(pc := LoadMax)])
  {
    var s, rec := states[|steps|], states[|steps|].recs[r];
    more, most := Extended(states, steps, Go(r, false));
    if more[|most|].recs[r].pc.LowerMin? {
      more, most := Extended(more, most, Go(r, false));
    }
    assert s.recs[r := rec.(pc := LowerMin)][r := rec.(pc := LoadMax)] == s.recs[r := rec.(pc := LoadMax)];
  }

  lemma MaxAlone(states: seq<State>, steps: seq<Step>, r: nat) returns (more: seq<State>, most: seq<Step>)
    requires Run(states, steps) && Enabled(states[|steps|], Go(r, false)) && states[|steps|].recs[r].pc.LoadMax?
    ensures Run(more, most)
    ensures var s, rec := states[|steps|], states[|steps|].recs[r];
      var h := s.shards[rec.shard];
      more[|most|] == State(s.shards[rec.shard := h.(max := Max(h.max, rec.value))], s.recs[r := rec.(pc := Done)])
  {
    var s, rec := states[|steps|], states[|steps|].recs[r];
    more, most := Extended(states, steps, Go(r, false));
    if more[|most|].recs[r].pc.RaiseMax? {
      more, most := Extended(more, most, Go(r, false));
    }
    assert s.recs[r := rec.(pc := RaiseMax)][r := rec.(pc := Done)] == s.recs[r := rec.(pc := Done)];
  }

  /** A recorder that nobody disturbs does to its shard what the method does,
      and to no other. */
  lemma RecordAlone(states: seq<State>, steps: seq<Step>, shard: nat, value: U64) returns (more: seq<State>, most: seq<Step>)
    requires Run(states, steps) && shard < |states[|steps|].shards|
    ensures Run(more, most)
    ensures var s := states[|steps|];
      more[|most|] == State(s.shards[shard := Recorded(s.shards[shard], value)], s.recs + [Recorder(shard, value, Done)])
  {
    var s := states[|steps|];
    var r := |s.recs|;
    more, most := SumAlone(states, steps, shard, value);
    more, most := MinAlone(more, most, r);
    more, most := MaxAlone(more, most, r);
    assert (s.recs + [Recorder(shard, value, LoadMin)])[r := Recorder(shard, value, LoadMax)]
        == s.recs + [Recorder(shard, value, LoadMax)];
    assert (s.recs + [Recorder(shard, value, LoadMax)])[r := Recorder(shard, value, Done)]
        == s.recs + [Recorder(shard, value, Done)];
  }
}
