/** A checkpoint job beside writers, flushes, manifest rewrites and merges of
    tables, in any interleaving. */
module Checkpoint {
  import opened Words
  import opened Lsm

  /** A record of the manifest log. */
  datatype Edit = Change(gone: set<nat>, come: set<nat>) | Image(ids: set<nat>)

  function Replay(log: seq<Edit>): set<nat> {
    if log == [] then {}
    else match log[|log| - 1]
      case Change(gone, come) => Replay(log[..|log| - 1]) - gone + come
      case Image(ids) => ids
  }

  /** A compaction pass. It has a share of the gate for as long as it is
      listed. */
  datatype Pass = Merging(inputs: set<nat>) | Unlinking(files: set<nat>)

  /** The target's MANIFEST, which is written in place: open and not written
      through, or a whole log, synced or not. */
  datatype ManifestFile = Torn(bytes: nat) | Whole(log: seq<Edit>, synced: bool)

  /** How far the job is with the MANIFEST. */
  datatype Writing = Unopened | Opened | Through

  /** `mark` is how much was written when the job's ordered unit ran, `left`
      how many of its targets are still frozen, `cut` how much was flushed
      when it captured. */
  datatype Job =
    | Unstarted
    | Prepared
    | Draining(mark: nat, left: nat)
    | Alone(mark: nat)
    | Linking(mark: nat, cut: nat, version: set<nat>, image: seq<Edit>, rest: set<nat>, file: Writing)
    | Finished(mark: nat, cut: nat, version: set<nat>)
    | Aborted

  datatype State = State(
    history: seq<Write>,
    seals: seq<nat>,
    flushedTo: nat,
    disk: map<nat, Table>,
    nextId: nat,
    version: set<nat>,
    log: seq<Edit>,
    passes: map<nat, Pass>,
    job: Job,
    targetSst: map<nat, Table>,
    targetManifest: Option<ManifestFile>
  )

  datatype Step =
    | Commit(write: Write)
    | Seal
    | Flush
    | Rewrite
    | BeginPass(p: nat, inputs: set<nat>)
    | Install(p: nat, outputs: map<nat, Table>, nextId: nat)
    | Unlink(p: nat, id: nat)
    | EndPass(p: nat)
    | Prepare
    | DrainUnit
    | TakeGate
    | Capture
    | Link(id: nat)
    | OpenManifest
    | WriteSome(bytes: nat)
    | WriteRest
    | SyncManifest
    | Abort

  /** The gate is held alone. */
  predicate HeldAlone(s: State) {
    s.job.Alone? || s.job.Linking?
  }

  /** Where the active memtable begins. */
  function ActiveFrom(s: State): nat {
    if s.seals == [] then s.flushedTo else s.seals[|s.seals| - 1]
  }

  ghost predicate Enabled(s: State, step: Step) {
    match step
    case Flush => s.seals != [] && s.flushedTo <= s.seals[0] <= |s.history|
    case BeginPass(p, inputs) =>
      && !HeldAlone(s) && p !in s.passes && inputs <= s.version
      && forall q | q in s.passes && s.passes[q].Merging? :: s.passes[q].inputs !! inputs
    case Install(p, outputs, nextId) =>
      && p in s.passes && s.passes[p].Merging?
      && (forall id | id in outputs :: s.nextId <= id < nextId) && s.nextId <= nextId
      && Merges(s.disk, s.version, s.passes[p].inputs, outputs)
    case Unlink(p, id) => p in s.passes && s.passes[p].Unlinking? && id in s.passes[p].files
    case EndPass(p) => p in s.passes
    case Prepare => s.job.Unstarted?
    case DrainUnit => s.job.Prepared?
    case TakeGate => s.job.Draining? && s.job.left == 0 && s.passes == map[]
    case Capture => s.job.Alone?
    case Link(id) => s.job.Linking? && s.job.file.Unopened? && id in s.job.rest && id in s.disk
    case OpenManifest => s.job.Linking? && s.job.file.Unopened? && s.job.rest == {}
    case WriteSome(_) => s.job.Linking? && s.job.file.Opened?
    case WriteRest => s.job.Linking? && s.job.file.Opened?
    case SyncManifest => s.job.Linking? && s.job.file.Through?
    case Abort => !s.job.Finished?
    case _ => true
  }

  ghost function Flushes(s: State): State
    requires Enabled(s, Flush)
  {
    s.(disk := s.disk[s.nextId := Flushed(s.history, s.flushedTo, s.seals[0])], nextId := s.nextId + 1,
       version := s.version + {s.nextId}, log := s.log + [Change({}, {s.nextId})],
       flushedTo := s.seals[0], seals := s.seals[1..],
       job := if s.job.Draining? && s.job.left > 0 then s.job.(left := s.job.left - 1) else s.job)
  }

  ghost function Drains(s: State): State
    requires s.job.Prepared?
  {
    var seals := if ActiveFrom(s) < |s.history| then s.seals + [|s.history|] else s.seals;
    s.(seals := seals, job := Draining(|s.history|, |seals|))
  }

  ghost function Apply(s: State, step: Step): State
    requires Enabled(s, step)
  {
    match step
    case Commit(write) => s.(history := s.history + [write])
    case Seal => s.(seals := s.seals + [|s.history|])
    case Flush => Flushes(s)
    case Rewrite => s.(log := [Image(s.version)])
    case BeginPass(p, inputs) => s.(passes := s.passes[p := Merging(inputs)])
    case Install(p, outputs, nextId) =>
      var inputs := s.passes[p].inputs;
      s.(disk := s.disk + outputs, nextId := nextId, version := s.version - inputs + outputs.Keys,
         log := s.log + [Change(inputs, outputs.Keys)], passes := s.passes[p := Unlinking(inputs)])
    case Unlink(_, id) => s.(disk := s.disk - {id})
    case EndPass(p) => s.(passes := s.passes - {p})
    case Prepare => s.(job := if s.targetSst == map[] then Prepared else Aborted)
    case DrainUnit => Drains(s)
    case TakeGate => s.(job := Alone(s.job.mark))
    case Capture =>
      var log := [Image(s.version)];
      s.(log := log, job := Linking(s.job.mark, s.flushedTo, s.version, log, s.version, Unopened))
    case Link(id) =>
      s.(targetSst := s.targetSst[id := s.disk[id]], job := s.job.(rest := s.job.rest - {id}))
    case OpenManifest => s.(targetManifest := Some(Torn(0)), job := s.job.(file := Opened))
    case WriteSome(bytes) => s.(targetManifest := Some(Torn(bytes)))
    case WriteRest => s.(targetManifest := Some(Whole(s.job.image, false)), job := s.job.(file := Through))
    case SyncManifest =>
      s.(targetManifest := Some(Whole(s.job.image, true)), job := Finished(s.job.mark, s.job.cut, s.job.version))
    case Abort => s.(job := Aborted)
  }

  /** An empty database, and a target with anything in it. */
  ghost predicate Start(s: State) {
    && s.history == [] && s.seals == [] && s.flushedTo == 0 && s.disk == map[] && s.version == {} && s.log == []
    && s.passes == map[] && s.job.Unstarted?
  }

  ghost predicate Run(states: seq<State>, steps: seq<Step>) {
    |states| == |steps| + 1 && Start(states[0]) && forall i | 0 <= i < |steps| :: StepAt(states, steps, i)
  }

  ghost predicate StepAt(states: seq<State>, steps: seq<Step>, i: nat)
    requires i < |steps| && i + 1 < |states|
  {
    Enabled(states[i], steps[i]) && states[i + 1] == Apply(states[i], steps[i])
  }

  // ----------------------------------------------------------- invariant

  ghost predicate SealsAscend(s: State) {
    && s.flushedTo <= |s.history|
    && (forall i | 0 <= i < |s.seals| :: s.flushedTo <= s.seals[i] <= |s.history|)
    && (forall i, j | 0 <= i < j < |s.seals| :: s.seals[i] <= s.seals[j])
  }

  ghost predicate Files(s: State) {
    && s.version <= s.disk.Keys && (forall id | id in s.disk :: id < s.nextId)
    && Replay(s.log) == s.version
  }

  ghost predicate Content(s: State) {
    Written(s.disk, s.version, s.history, s.flushedTo) && ReadsAs(s.disk, s.version, s.history, s.flushedTo)
  }

  /** Passes keep off each other's tables, unlink only what the version no
      longer names, and none runs while the gate is held alone. */
  ghost predicate Passes(s: State) {
    && (forall p | p in s.passes && s.passes[p].Merging? :: s.passes[p].inputs <= s.version)
    && (forall p, q | p in s.passes && q in s.passes && p != q && s.passes[p].Merging? && s.passes[q].Merging? ::
          s.passes[p].inputs !! s.passes[q].inputs)
    && (forall p | p in s.passes && s.passes[p].Unlinking? ::
          s.passes[p].files !! s.version && forall id | id in s.passes[p].files :: id < s.nextId)
    && (HeldAlone(s) ==> s.passes == map[])
  }

  /** The drain has what it needs flushed, or its last target still frozen. */
  ghost predicate Drain(s: State) {
    && (s.job.Draining? ==>
          && s.job.left <= |s.seals| && s.job.mark <= |s.history|
          && s.job.mark <= if s.job.left == 0 then s.flushedTo else s.seals[s.job.left - 1])
    && (s.job.Alone? ==> s.job.mark <= s.flushedTo)
  }

  ghost predicate Copies(s: State) {
    && (s.job.Unstarted? || s.targetSst == map[] || s.job.Linking? || s.job.Finished? || s.job.Aborted?)
    && (s.job.Linking? ==>
          && s.job.mark <= s.job.cut <= s.flushedTo && s.job.version <= s.version && s.job.rest <= s.job.version
          && s.job.image == [Image(s.job.version)]
          && s.targetSst.Keys == s.job.version - s.job.rest && (!s.job.file.Unopened? ==> s.job.rest == {})
          && (forall id | id in s.targetSst :: id in s.disk && s.disk[id] == s.targetSst[id])
          && ReadsAs(s.disk, s.job.version, s.history, s.job.cut))
    && (s.job.Finished? ==>
          && s.job.mark <= s.job.cut <= s.flushedTo
          && s.targetManifest == Some(Whole([Image(s.job.version)], true)) && s.targetSst.Keys == s.job.version
          && ReadsAs(s.targetSst, s.job.version, s.history, s.job.cut))
  }

  ghost predicate Inv(s: State) {
    SealsAscend(s) && Files(s) && Content(s) && Passes(s) && Drain(s) && Copies(s)
  }

  lemma CommitKeepsInv(s: State, write: Write)
    requires Inv(s)
    ensures Inv(Apply(s, Commit(write)))
  {
    ReadsAsGrows(s.disk, s.version, s.history, [write], s.flushedTo);
    if s.job.Linking? {
      ReadsAsGrows(s.disk, s.job.version, s.history, [write], s.job.cut);
    }
    if s.job.Finished? {
      ReadsAsGrows(s.targetSst, s.job.version, s.history, [write], s.job.cut);
    }
  }

  lemma ReplayGrows(log: seq<Edit>, edit: Edit)
    requires edit.Change?
    ensures Replay(log + [edit]) == Replay(log) - edit.gone + edit.come
  {
    assert (log + [edit])[..|log|] == log;
  }

  lemma FlushKeepsInv(s: State)
    requires Inv(s) && Enabled(s, Flush)
    ensures Inv(Flushes(s))
  {
    var t := Flushes(s);
    FlushExtendsThePrefix(s.disk, s.version, s.history, s.flushedTo, s.seals[0], s.nextId);
    ReplayGrows(s.log, Change({}, {s.nextId}));
    CopiesOutlive(s, t);
  }

  /** What a job linked or will link outlives a change that leaves the
      captured tables where they are. */
  lemma CopiesOutlive(s: State, t: State)
    requires Copies(s) && t.history == s.history && t.flushedTo >= s.flushedTo
    requires s.version <= s.disk.Keys
    requires t.targetSst == s.targetSst && t.targetManifest == s.targetManifest
    requires t.job == s.job || (s.job.Draining? && t.job.Draining?)
    requires s.job.Linking? ==> s.job.version <= t.version && forall id | id in s.job.version :: id in t.disk && t.disk[id] == s.disk[id]
    ensures Copies(t)
  {
    if s.job.Linking? {
      ReadsOnlyTheTables(s.disk, t.disk, s.job.version, s.history, s.job.cut);
    }
  }

  lemma InstallKeepsInv(s: State, step: Step)
    requires Inv(s) && Enabled(s, step) && step.Install?
    ensures Inv(Apply(s, step))
  {
    var t, inputs := Apply(s, step), s.passes[step.p].inputs;
    MergeKeepsReadings(s.disk, s.version, inputs, step.outputs, s.history, s.flushedTo);
    ReplayGrows(s.log, Change(inputs, step.outputs.Keys));
    CopiesOutlive(s, t);
  }

  lemma UnlinkKeepsInv(s: State, step: Step)
    requires Inv(s) && Enabled(s, step) && step.Unlink?
    ensures Inv(Apply(s, step))
  {
    var t := Apply(s, step);
    assert step.id !in s.version;
    ReadsOnlyTheTables(s.disk, t.disk, s.version, s.history, s.flushedTo);
    CopiesOutlive(s, t);
  }

  lemma DrainUnitKeepsInv(s: State)
    requires Inv(s) && s.job.Prepared?
    ensures Inv(Drains(s))
  {
  }

  lemma CaptureKeepsInv(s: State)
    requires Inv(s) && s.job.Alone?
    ensures Inv(Apply(s, Capture))
  {
  }

  lemma LinkKeepsInv(s: State, id: nat)
    requires Inv(s) && Enabled(s, Link(id))
    ensures Inv(Apply(s, Link(id)))
  {
  }

  lemma GateStepKeepsInv(s: State, step: Step)
    requires Inv(s) && Enabled(s, step) && (step.Prepare? || step.TakeGate? || step.Abort?)
    ensures Inv(Apply(s, step))
  {
  }

  lemma ManifestStepKeepsInv(s: State, step: Step)
    requires Inv(s) && Enabled(s, step) && (step.OpenManifest? || step.WriteSome? || step.WriteRest?)
    ensures Inv(Apply(s, step))
  {
  }

  lemma SyncManifestKeepsInv(s: State)
    requires Inv(s) && Enabled(s, SyncManifest)
    ensures Inv(Apply(s, SyncManifest))
  {
    ReadsOnlyTheTables(s.disk, s.targetSst, s.job.version, s.history, s.job.cut);
  }

  lemma LogStepKeepsInv(s: State, step: Step)
    requires Inv(s) && (step.Seal? || step.Rewrite?)
    ensures Inv(Apply(s, step))
  {
    CopiesOutlive(s, Apply(s, step));
  }

  lemma PassStepKeepsInv(s: State, step: Step)
    requires Inv(s) && Enabled(s, step) && (step.BeginPass? || step.EndPass?)
    ensures Inv(Apply(s, step))
  {
    CopiesOutlive(s, Apply(s, step));
  }

  lemma StepKeepsInv(s: State, step: Step)
    requires Inv(s) && Enabled(s, step)
    ensures Inv(Apply(s, step))
  {
    match step
    case Commit(write) => CommitKeepsInv(s, write);
    case Flush => FlushKeepsInv(s);
    case Install(_, _, _) => InstallKeepsInv(s, step);
    case Unlink(_, _) => UnlinkKeepsInv(s, step);
    case DrainUnit => DrainUnitKeepsInv(s);
    case Capture => CaptureKeepsInv(s);
    case Link(id) => LinkKeepsInv(s, id);
    case OpenManifest => ManifestStepKeepsInv(s, step);
    case WriteSome(_) => ManifestStepKeepsInv(s, step);
    case WriteRest => ManifestStepKeepsInv(s, step);
    case SyncManifest => SyncManifestKeepsInv(s);
    case Prepare => GateStepKeepsInv(s, step);
    case TakeGate => GateStepKeepsInv(s, step);
    case Abort => GateStepKeepsInv(s, step);
    case Seal => LogStepKeepsInv(s, step);
    case Rewrite => LogStepKeepsInv(s, step);
    case BeginPass(_, _) => PassStepKeepsInv(s, step);
    case EndPass(_) => PassStepKeepsInv(s, step);
  }

  lemma {:induction false} RunKeepsInv(states: seq<State>, steps: seq<Step>, i: nat)
    requires Run(states, steps) && i < |states|
    ensures Inv(states[i])
  {
    if i > 0 {
      assert StepAt(states, steps, i - 1);
      RunKeepsInv(states, steps, i - 1);
      StepKeepsInv(states[i - 1], steps[i - 1]);
    }
  }

  // -------------------------------------------------------------- results

  predicate Drained(job: Job) {
    job.Draining? || job.Alone? || job.Linking? || job.Finished?
  }

  predicate Captured(job: Job) {
    job.Linking? || job.Finished?
  }

  lemma StepKeepsMark(s: State, step: Step)
    requires Enabled(s, step) && Drained(Apply(s, step).job) && !step.DrainUnit?
    ensures Drained(s.job) && Apply(s, step).job.mark == s.job.mark
  {
  }

  /** The ordered unit the job's mark comes from. */
  lemma {:induction false} MarkIsTheUnits(states: seq<State>, steps: seq<Step>, j: nat) returns (d: nat)
    requires Run(states, steps) && j < |states| && Drained(states[j].job)
    ensures d < j && steps[d].DrainUnit? && states[j].job.mark == |states[d].history|
  {
    assert j > 0 && StepAt(states, steps, j - 1);
    if steps[j - 1].DrainUnit? {
      d := j - 1;
    } else {
      StepKeepsMark(states[j - 1], steps[j - 1]);
      d := MarkIsTheUnits(states, steps, j - 1);
    }
  }

  /** The captured tables are the ones the version named then, byte for byte,
      for as long as the job links them and in the target afterwards. */
  ghost predicate AsCaptured(s: State, at: State) {
    && Captured(s.job) && s.job.cut == at.flushedTo && s.job.version == at.version
    && (s.job.Linking? ==> forall id | id in at.version ::
          id in s.disk && id in at.disk && s.disk[id] == at.disk[id])
    && (s.job.Finished? ==> forall id | id in at.version ::
          id in s.targetSst && id in at.disk && s.targetSst[id] == at.disk[id])
  }

  lemma {:induction false} CutIsTheCaptures(states: seq<State>, steps: seq<Step>, j: nat) returns (c: nat)
    requires Run(states, steps) && j < |states| && Captured(states[j].job)
    ensures c < j && steps[c].Capture? && AsCaptured(states[j], states[c])
  {
    assert j > 0 && StepAt(states, steps, j - 1);
    if steps[j - 1].Capture? {
      c := j - 1;
      RunKeepsInv(states, steps, c);
      CaptureTakes(states[c]);
    } else {
      StaysCaptured(states[j - 1], steps[j - 1]);
      RunKeepsInv(states, steps, j - 1);
      c := CutIsTheCaptures(states, steps, j - 1);
      StepKeepsCaptured(states[j - 1], steps[j - 1], states[c]);
    }
  }

  lemma CaptureTakes(s: State)
    requires Files(s) && s.job.Alone?
    ensures AsCaptured(Apply(s, Capture), s)
  {
  }

  lemma StaysCaptured(s: State, step: Step)
    requires Enabled(s, step) && Captured(Apply(s, step).job) && !step.Capture?
    ensures Captured(s.job)
  {
  }

  lemma StepKeepsCaptured(s: State, step: Step, at: State)
    requires Inv(s) && Enabled(s, step) && Captured(s.job) && !step.Abort? && AsCaptured(s, at)
    ensures AsCaptured(Apply(s, step), at)
  {
  }

  /** A finished checkpoint is the database at one point: its MANIFEST names
      exactly the tables in it, they are the captured ones, and what they read
      is the first `cut` writes, for a cut between everything acknowledged
      before the drain and what was written by the capture. Nothing written or
      installed after the capture is in it. */
  lemma CheckpointIsOnePoint(states: seq<State>, steps: seq<Step>, j: nat) returns (d: nat, c: nat)
    requires Run(states, steps) && j < |states| && states[j].job.Finished?
    ensures d < j && c < j && steps[d].DrainUnit? && steps[c].Capture?
    ensures |states[d].history| <= states[j].job.cut <= |states[c].history|
    ensures var file := states[j].targetManifest;
      && file.Some? && file.value.Whole? && file.value.synced && Replay(file.value.log) == states[j].targetSst.Keys
    ensures states[j].targetSst.Keys == states[c].version
    ensures forall id | id in states[c].version :: id in states[c].disk && states[j].targetSst[id] == states[c].disk[id]
    ensures ReadsAs(states[j].targetSst, states[j].targetSst.Keys, states[j].history, states[j].job.cut)
  {
    d := MarkIsTheUnits(states, steps, j);
    c := CutIsTheCaptures(states, steps, j);
    RunKeepsInv(states, steps, j);
    RunKeepsInv(states, steps, c);
  }

  ghost predicate OpenedBy(steps: seq<Step>, j: nat) {
    exists i :: 0 <= i < j && i < |steps| && steps[i].OpenManifest?
  }

  /** What the job's writes so far come to. */
  ghost predicate ManifestInOrder(s: State, begun: bool, before: Option<ManifestFile>) {
    && (!begun ==> s.targetManifest == before && !s.job.Finished? && (s.job.Linking? ==> s.job.file.Unopened?))
    && (begun ==>
          && s.targetManifest.Some? && (s.job.Linking? || s.job.Finished? || s.job.Aborted?)
          && (s.job.Linking? ==> !s.job.file.Unopened?)
          && (s.targetManifest.value.Whole? && s.targetManifest.value.synced <==> s.job.Finished?))
  }

  lemma StepKeepsManifest(s: State, step: Step, begun: bool, before: Option<ManifestFile>)
    requires Enabled(s, step) && ManifestInOrder(s, begun, before)
    ensures ManifestInOrder(Apply(s, step), begun || step.OpenManifest?, before)
  {
  }

  lemma {:induction false} ManifestStaysInOrder(states: seq<State>, steps: seq<Step>, j: nat)
    requires Run(states, steps) && j < |states|
    ensures ManifestInOrder(states[j], OpenedBy(steps, j), states[0].targetManifest)
  {
    if j > 0 {
      assert StepAt(states, steps, j - 1);
      ManifestStaysInOrder(states, steps, j - 1);
      StepKeepsManifest(states[j - 1], steps[j - 1], OpenedBy(steps, j - 1), states[0].targetManifest);
      OpenedGrows(steps, j);
    }
  }

  lemma OpenedGrows(steps: seq<Step>, j: nat)
    requires 0 < j <= |steps|
    ensures OpenedBy(steps, j) <==> OpenedBy(steps, j - 1) || steps[j - 1].OpenManifest?
  {
  }

  /** Which MANIFEST the target shows, at every step of every run, the runs of
      jobs that failed among them: some MANIFEST exactly when the target had
      one or the job got as far as opening it; from then on a whole and synced
      one exactly when the job is done, and until then the one that was there.
      The target is not asked for a MANIFEST before the job begins. */
  lemma ManifestIsWholeExactlyWhenFinished(states: seq<State>, steps: seq<Step>, j: nat)
    requires Run(states, steps) && j < |states|
    ensures states[j].targetManifest.Some? <==> states[0].targetManifest.Some? || OpenedBy(steps, j)
    ensures !OpenedBy(steps, j) ==> states[j].targetManifest == states[0].targetManifest && !states[j].job.Finished?
    ensures OpenedBy(steps, j) ==>
      (states[j].targetManifest.value.Whole? && states[j].targetManifest.value.synced <==> states[j].job.Finished?)
  {
    ManifestStaysInOrder(states, steps, j);
  }

  lemma Extended(states: seq<State>, steps: seq<Step>, step: Step) returns (more: seq<State>, most: seq<Step>)
    requires Run(states, steps) && Enabled(states[|steps|], step)
    ensures Run(more, most) && most == steps + [step]
    ensures states <= more && more[|most|] == Apply(states[|steps|], step)
  {
    more, most := states + [Apply(states[|steps|], step)], steps + [step];
    forall i | 0 <= i < |most| ensures StepAt(more, most, i) {
      assert i < |steps| ==> StepAt(states, steps, i);
    }
  }

  function EmptyDatabase(manifest: Option<ManifestFile>): State {
    State([], [], 0, map[], 0, {}, [], map[], Unstarted, map[], manifest)
  }

  /** A job on an empty database whose write of the MANIFEST fails after
      `bytes` bytes leaves those bytes as the target's MANIFEST. */
  lemma AFailedJobCanLeaveATornManifest(bytes: nat) returns (states: seq<State>, steps: seq<Step>)
    ensures Run(states, steps) && states[0].targetManifest.None?
    ensures states[|steps|].job.Aborted? && states[|steps|].targetManifest == Some(Torn(bytes))
  {
    states, steps := LinkedNothing();
    states, steps := Extended(states, steps, OpenManifest);
    states, steps := Extended(states, steps, WriteSome(bytes));
    states, steps := Extended(states, steps, Abort);
  }

  lemma LinkedNothing() returns (states: seq<State>, steps: seq<Step>)
    ensures Run(states, steps) && states[0].targetManifest.None?
    ensures states[|steps|].job == Linking(0, 0, {}, [Image({})], {}, Unopened)
  {
    states, steps := [EmptyDatabase(None)], [];
    states, steps := Extended(states, steps, Prepare);
    states, steps := Extended(states, steps, DrainUnit);
    states, steps := Extended(states, steps, TakeGate);
    states, steps := Extended(states, steps, Capture);
  }

  /** A target with an empty `sst/` and an old MANIFEST is taken, and a job
      that fails before it opens its own leaves the old one. */
  lemma AnOldManifestIsTaken(was: ManifestFile) returns (states: seq<State>, steps: seq<Step>)
    ensures Run(states, steps) && |steps| == 2 && states[1].job.Prepared?
    ensures states[2].job.Aborted? && states[2].targetManifest == Some(was)
  {
    states, steps := [EmptyDatabase(Some(was))], [];
    states, steps := Extended(states, steps, Prepare);
    states, steps := Extended(states, steps, Abort);
  }

  /** No merge installs or unlinks while a checkpoint has the gate, and no
      unlink at any time takes a table the version names. */
  lemma UnlinksSpareTheVersion(states: seq<State>, steps: seq<Step>, i: nat)
    requires Run(states, steps) && i < |steps| && (steps[i].Unlink? || steps[i].Install?)
    ensures !HeldAlone(states[i])
    ensures steps[i].Unlink? ==> steps[i].id !in states[i].version
  {
    assert StepAt(states, steps, i);
    RunKeepsInv(states, steps, i);
  }

  ghost function FlushesIn(steps: seq<Step>): nat {
    if steps == [] then 0 else FlushesIn(steps[..|steps| - 1]) + if steps[|steps| - 1].Flush? then 1 else 0
  }

  /** Writers cannot extend a drain: it is over after as many flushes as it had
      targets, whatever is sealed meanwhile. */
  lemma DrainsAreNotExtended(states: seq<State>, steps: seq<Step>, i: nat, j: nat)
    requires Run(states, steps) && i <= j < |states| && states[i].job.Draining? && states[j].job.Draining?
    ensures states[j].job.left == Max(states[i].job.left - FlushesIn(steps[i..j]), 0)
  {
    LeftsCountDown(states, steps, i, j);
    CountsDown(Lefts(states), steps, i, j);
  }

  function Lefts(states: seq<State>): (lefts: seq<nat>)
    ensures |lefts| == |states| && forall k | 0 <= k < |states| :: lefts[k] == Left(states[k].job)
  {
    seq(|states|, k requires 0 <= k < |states| => Left(states[k].job))
  }

  lemma LeftsCountDown(states: seq<State>, steps: seq<Step>, i: nat, j: nat)
    requires Run(states, steps) && i <= j < |states| && states[i].job.Draining? && states[j].job.Draining?
    ensures forall k | i <= k < j :: Lefts(states)[k + 1] == CountedDown(Lefts(states)[k], steps[k])
  {
    forall k | i <= k < j ensures Lefts(states)[k + 1] == CountedDown(Lefts(states)[k], steps[k]) {
      DrainGoesOn(states, steps, i, j, k);
    }
  }

  function Left(job: Job): nat {
    if job.Draining? then job.left else 0
  }

  lemma DrainGoesOn(states: seq<State>, steps: seq<Step>, i: nat, j: nat, k: nat)
    requires Run(states, steps) && i <= k < j < |states| && states[i].job.Draining? && states[j].job.Draining?
    ensures Left(states[k + 1].job) == CountedDown(Left(states[k].job), steps[k])
  {
    assert StepAt(states, steps, k);
    StagesAdvance(states, steps, i, k);
    StagesAdvance(states, steps, k + 1, j);
    DrainStep(states[k], steps[k]);
  }

  ghost function CountedDown(left: nat, step: Step): nat {
    if step.Flush? then Max(left - 1, 0) else left
  }

  lemma {:induction false} CountsDown(lefts: seq<nat>, steps: seq<Step>, i: nat, j: nat)
    requires i <= j <= |steps| && |lefts| == |steps| + 1
    requires forall k | i <= k < j :: lefts[k + 1] == CountedDown(lefts[k], steps[k])
    ensures lefts[j] == Max(lefts[i] - FlushesIn(steps[i..j]), 0)
  {
    if i < j {
      CountsDown(lefts, steps, i, j - 1);
      FlushesGrow(steps, i, j);
      assert lefts[j - 1 + 1] == CountedDown(lefts[j - 1], steps[j - 1]);
    }
  }

  lemma FlushesGrow(steps: seq<Step>, i: nat, j: nat)
    requires i < j <= |steps|
    ensures FlushesIn(steps[i..j]) == FlushesIn(steps[i..j - 1]) + if steps[j - 1].Flush? then 1 else 0
  {
    assert steps[i..j][..j - 1 - i] == steps[i..j - 1];
  }

  function Stage(job: Job): nat {
    match job
    case Unstarted => 0
    case Prepared => 1
    case Draining(_, _) => 2
    case Alone(_) => 3
    case Linking(_, _, _, _, _, _) => 4
    case Finished(_, _, _) => 5
    case Aborted => 6
  }

  lemma StageAdvances(s: State, step: Step)
    requires Enabled(s, step)
    ensures Stage(s.job) <= Stage(Apply(s, step).job)
  {
  }

  lemma StagesAdvance(states: seq<State>, steps: seq<Step>, i: nat, j: nat)
    requires Run(states, steps) && i <= j < |states|
    ensures Stage(states[i].job) <= Stage(states[j].job)
  {
    var stages := seq(|states|, k requires 0 <= k < |states| => Stage(states[k].job));
    forall k | 0 <= k < |stages| - 1 ensures stages[k] <= stages[k + 1] {
      assert StepAt(states, steps, k);
      StageAdvances(states[k], steps[k]);
    }
    Ascends(stages, i, j);
  }

  lemma {:induction false} Ascends(stages: seq<nat>, i: nat, j: nat)
    requires i <= j < |stages| && forall k | 0 <= k < |stages| - 1 :: stages[k] <= stages[k + 1]
    ensures stages[i] <= stages[j]
  {
    if i < j {
      Ascends(stages, i, j - 1);
      assert stages[j - 1] <= stages[j - 1 + 1];
    }
  }

  lemma DrainStep(s: State, step: Step)
    requires Enabled(s, step) && Stage(s.job) >= 2 && Stage(Apply(s, step).job) <= 2
    ensures Left(Apply(s, step).job) == CountedDown(Left(s.job), step)
  {
    StageAdvances(s, step);
  }

  // --------------------------------------------------- a job can finish

  lemma {:induction false} DrainCanEnd(states: seq<State>, steps: seq<Step>) returns (more: seq<State>, most: seq<Step>)
    requires Run(states, steps) && states[|steps|].job.Draining? && states[|steps|].passes == map[]
    ensures Run(more, most) && states <= more && steps <= most
    ensures more[|most|].job == states[|steps|].job.(left := 0) && more[|most|].passes == map[]
    decreases states[|steps|].job.left
  {
    more, most := states, steps;
    if states[|steps|].job.left > 0 {
      RunKeepsInv(states, steps, |steps|);
      more, most := Extended(states, steps, Flush);
      more, most := DrainCanEnd(more, most);
    }
  }

  lemma {:induction false} LinksCanEnd(states: seq<State>, steps: seq<Step>) returns (more: seq<State>, most: seq<Step>)
    requires Run(states, steps) && states[|steps|].job.Linking? && states[|steps|].job.file.Unopened?
    ensures Run(more, most) && states <= more && steps <= most
    ensures more[|most|].job == states[|steps|].job.(rest := {})
    decreases |states[|steps|].job.rest|
  {
    more, most := states, steps;
    if states[|steps|].job.rest != {} {
      var id :| id in states[|steps|].job.rest;
      RunKeepsInv(states, steps, |steps|);
      more, most := Extended(states, steps, Link(id));
      more, most := LinksCanEnd(more, most);
    }
  }

  lemma ManifestCanBeWritten(states: seq<State>, steps: seq<Step>) returns (more: seq<State>, most: seq<Step>)
    requires Run(states, steps) && states[|steps|].job.Linking? && states[|steps|].job.rest == {}
    requires states[|steps|].job.file.Unopened?
    ensures Run(more, most) && states <= more && steps <= most && more[|most|].job.Finished?
  {
    more, most := Extended(states, steps, OpenManifest);
    more, most := Extended(more, most, WriteRest);
    more, most := Extended(more, most, SyncManifest);
  }

  /** A job is never stuck: wherever a run has got to, once the compaction passes
      under way are over, a job into a target with an empty `sst/` can finish. */
  lemma JobCanFinish(states: seq<State>, steps: seq<Step>) returns (more: seq<State>, most: seq<Step>)
    requires Run(states, steps) && states[|steps|].job.Unstarted?
    requires states[|steps|].passes == map[] && states[|steps|].targetSst == map[]
    ensures Run(more, most) && states <= more && steps <= most && more[|most|].job.Finished?
  {
    more, most := Extended(states, steps, Prepare);
    more, most := Extended(more, most, DrainUnit);
    more, most := DrainCanEnd(more, most);
    more, most := Extended(more, most, TakeGate);
    more, most := Extended(more, most, Capture);
    more, most := LinksCanEnd(more, most);
    more, most := ManifestCanBeWritten(more, most);
  }
}
