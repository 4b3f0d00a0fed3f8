/** A backup repository on a disk that can lose power at any step: creating a
    backup, deleting backups, and collecting the tables no backup lists. */
module BackupStore {
  import opened Words
  import opened Durable

  /** A table's content id. It is injective on the tables in play, so it may
      as well be the content. */
  type ContentId = Bytes

  function ContentIdOf(content: Bytes): ContentId {
    content
  }

  datatype SharedName = Table(id: ContentId) | Staging(id: ContentId)
  datatype MetaName = Backup(no: nat) | MetaStaging(no: nat)

  datatype Listed = Listed(id: ContentId, size: nat)
  type Listing = seq<Listed>

  /** A table of the database being backed up, with the size on record. */
  datatype Source = Source(content: Bytes, size: nat)

  /** Where the engine is in the one operation it runs. */
  datatype Op =
    | Idle
    | Creating(no: nat, todo: seq<Source>, listed: Listing)
    | Writing(no: nat, todo: seq<Source>, listed: Listing, written: nat)
    | Staged(no: nat, todo: seq<Source>, listed: Listing)
    | Renamed(no: nat, todo: seq<Source>, listed: Listing)
    | Rechecking(no: nat, todo: seq<Source>, listed: Listing)
    | MetaWriting(no: nat, listed: Listing)
    | MetaStaged(no: nat, listed: Listing)
    | MetaRenamed(no: nat, listed: Listing)
    | Deleting(nos: seq<nat>)
    | Collecting
    | Sweeping(rest: set<ContentId>)
    | Striking(rest: set<ContentId>, batch: set<ContentId>, unread: set<nat>)
    | Unlinking(rest: set<ContentId>, batch: set<ContentId>)

  /** `unreadable` are the backups whose metadata cannot be read at the moment;
      `faulty` says a sync of `shared/` right after a table's rename has
      failed. */
  datatype State = State(
    shared: Dir<SharedName, Bytes>,
    meta: Dir<MetaName, Listing>,
    unreadable: set<nat>,
    op: Op,
    faulty: bool
  )

  datatype Step =
    | BeginCreate(no: nat, sources: seq<Source>)
    | Verify
    | Write(upTo: nat)
    | SyncStaging
    | RenameStaging
    | SyncShared(ok: bool)
    | Recheck
    | StageMeta(written: Listing)
    | SyncMetaFile
    | RenameMeta
    | SyncMeta(ok: bool)
    | BeginDelete(nos: seq<nat>)
    | RemoveMeta
    | SyncBeforeCollecting(ok: bool)
    | TakeBatch(batch: set<ContentId>)
    | ReadListing(no: nat)
    | EndStrike
    | RemoveTable(id: ContentId)
    | EndBatch(synced: bool)
    | EndCollection
    | Fail
    | PowerCut(shared: Dir<SharedName, Bytes>, meta: Dir<MetaName, Listing>)
    | Reopen
    | Damage(unreadable: set<nat>)

  ghost function Init(): State {
    State(Dir(map[], map[]), Dir(map[], map[]), {}, Idle, false)
  }

  /** `verify_shared_file`: a file of the size on record with the content id it
      is named by. */
  predicate Verifies(node: Option<Node<Bytes>>, src: Source) {
    && node.Some? && node.value.File?
    && |node.value.content| == src.size && ContentIdOf(node.value.content) == ContentIdOf(src.content)
  }

  ghost function LiveBackups(s: State): set<nat> {
    set n | n in s.meta.live && n.Backup? :: n.no
  }

  ghost function LiveTables(s: State): set<ContentId> {
    set n | n in s.shared.live && n.Table? && s.shared.live[n].File? :: n.id
  }

  function Ids(listing: Listing): set<ContentId> {
    set l | l in listing :: l.id
  }

  ghost predicate Enabled(s: State, step: Step) {
    match step
    case BeginCreate(no, _) => s.op.Idle? && forall n: nat | Backup(n) in s.meta.live :: n < no
    case Verify => s.op.Creating? && s.op.todo != []
    case Write(upTo) => s.op.Writing? && s.op.todo != [] && s.op.written < upTo <= |s.op.todo[0].content|
    case SyncStaging => s.op.Writing? && s.op.todo != [] && s.op.written == |s.op.todo[0].content|
    case RenameStaging =>
      s.op.Staged? && s.op.todo != [] && Staging(ContentIdOf(s.op.todo[0].content)) in s.shared.live
    case SyncShared(_) => s.op.Renamed? && s.op.todo != []
    case Recheck => s.op.Rechecking? && s.op.todo != []
    case StageMeta(_) => s.op.Creating? && s.op.todo == []
    case SyncMetaFile => s.op.MetaWriting?
    case RenameMeta => s.op.MetaStaged? && MetaStaging(s.op.no) in s.meta.live
    case SyncMeta(_) => s.op.MetaRenamed?
    case BeginDelete(_) => s.op.Idle?
    case RemoveMeta => s.op.Deleting?
    case SyncBeforeCollecting(_) => s.op.Collecting?
    case TakeBatch(batch) => s.op.Sweeping? && batch <= s.op.rest
    case ReadListing(no) => s.op.Striking? && no in s.op.unread && Backup(no) in s.meta.live
    case EndStrike => s.op.Striking? && s.op.unread == {}
    case RemoveTable(id) => s.op.Unlinking? && id in s.op.batch
    case EndBatch(_) => s.op.Unlinking? && s.op.batch == {}
    case EndCollection => s.op.Sweeping? && s.op.rest == {}
    case Fail => !s.op.Idle?
    case PowerCut(shared, meta) => Crashed(s.shared, shared) && Crashed(s.meta, meta)
    case Reopen => true
    case Damage(_) => true
  }

  ghost function Apply(s: State, step: Step): State
    requires Enabled(s, step)
  {
    match step
    case BeginCreate(no, sources) => s.(op := Creating(no, sources, []))
    case Verify =>
      var Creating(no, todo, listed) := s.op;
      var src, id := todo[0], ContentIdOf(todo[0].content);
      var found := Get(s.shared, Table(id));
      if Verifies(found, src) then s.(op := Creating(no, todo[1..], listed + [Listed(id, src.size)]))
      else if found == Some(Folder) then s.(op := Idle)
      else s.(shared := Put(s.shared, Staging(id), File([], false)), op := Writing(no, todo, listed, 0))
    case Write(upTo) =>
      var src := s.op.todo[0];
      s.(shared := Put(s.shared, Staging(ContentIdOf(src.content)), File(src.content[..upTo], false)),
         op := s.op.(written := upTo))
    case SyncStaging =>
      var Writing(no, todo, listed, _) := s.op;
      s.(shared := Put(s.shared, Staging(ContentIdOf(todo[0].content)), File(todo[0].content, true)),
         op := Staged(no, todo, listed))
    case RenameStaging =>
      var Staged(no, todo, listed) := s.op;
      var id := ContentIdOf(todo[0].content);
      s.(shared := Rename(s.shared, Staging(id), Table(id)), op := Renamed(no, todo, listed))
    case SyncShared(ok) =>
      var Renamed(no, todo, listed) := s.op;
      if ok then s.(shared := SyncDir(s.shared), op := Rechecking(no, todo, listed))
      else s.(op := Idle, faulty := true)
    case Recheck =>
      var Rechecking(no, todo, listed) := s.op;
      var src, id := todo[0], ContentIdOf(todo[0].content);
      if Verifies(Get(s.shared, Table(id)), src)
      then s.(op := Creating(no, todo[1..], listed + [Listed(id, src.size)]))
      else s.(op := Idle)
    case StageMeta(written) =>
      s.(meta := Put(s.meta, MetaStaging(s.op.no), File(written, false)), op := MetaWriting(s.op.no, s.op.listed))
    case SyncMetaFile =>
      s.(meta := Put(s.meta, MetaStaging(s.op.no), File(s.op.listed, true)), op := MetaStaged(s.op.no, s.op.listed))
    case RenameMeta =>
      s.(meta := Rename(s.meta, MetaStaging(s.op.no), Backup(s.op.no)), op := MetaRenamed(s.op.no, s.op.listed))
    case SyncMeta(ok) => s.(meta := if ok then SyncDir(s.meta) else s.meta, op := Idle)
    case BeginDelete(nos) => s.(op := Deleting(nos))
    case RemoveMeta =>
      if s.op.nos == [] then s.(op := Collecting)
      else s.(meta := Remove(s.meta, Backup(s.op.nos[0])), op := Deleting(s.op.nos[1..]))
    case SyncBeforeCollecting(ok) =>
      if ok then s.(meta := SyncDir(s.meta), op := Sweeping(LiveTables(s))) else s.(op := Idle)
    case TakeBatch(batch) => s.(op := Striking(s.op.rest - batch, batch, LiveBackups(s)))
    case ReadListing(no) =>
      var Striking(rest, batch, unread) := s.op;
      var node := s.meta.live[Backup(no)];
      if no in s.unreadable || node.Folder? then s.(op := Idle)
      else s.(op := Striking(rest, batch - Ids(node.content), unread - {no}))
    case EndStrike => s.(op := Unlinking(s.op.rest, s.op.batch))
    case RemoveTable(id) =>
      s.(shared := Remove(s.shared, Table(id)), op := Unlinking(s.op.rest, s.op.batch - {id}))
    case EndBatch(synced) =>
      s.(shared := if synced then SyncDir(s.shared) else s.shared, op := Sweeping(s.op.rest))
    case EndCollection => s.(op := Idle)
    case Fail => s.(op := Idle, faulty := s.faulty || s.op.Renamed?)
    case PowerCut(shared, meta) => s.(shared := shared, meta := meta, op := Idle)
    case Reopen => s.(shared := SyncDir(s.shared), meta := SyncDir(s.meta), op := Idle)
    case Damage(unreadable) => s.(unreadable := unreadable)
  }

  ghost predicate Steps(states: seq<State>, steps: seq<Step>) {
    |states| == |steps| + 1 && forall i | 0 <= i < |steps| :: StepAt(states, steps, i)
  }

  ghost predicate StepAt(states: seq<State>, steps: seq<Step>, i: nat)
    requires i < |steps| && i + 1 < |states|
  {
    Enabled(states[i], steps[i]) && states[i + 1] == Apply(states[i], steps[i])
  }

  ghost predicate Run(states: seq<State>, steps: seq<Step>) {
    Steps(states, steps) && states[0] == Init()
  }

  // ----------------------------------------------------------- invariant

  /** The table is in `shared/`, with its size and its bytes, whatever the next
      power cut does. */
  ghost predicate TableSafe(shared: Dir<SharedName, Bytes>, l: Listed) {
    Certain(shared, Table(l.id), l.id) && |l.id| == l.size
  }

  ghost predicate AllSafe(shared: Dir<SharedName, Bytes>, listing: Listing) {
    forall i | 0 <= i < |listing| :: TableSafe(shared, listing[i])
  }

  /** Every backup there is, or that a power cut may bring back, has its
      tables. */
  ghost predicate BackupsWhole(s: State) {
    forall no, node | node in Possible(s.meta, Backup(no)) :: Whole(s.shared, node)
  }

  ghost predicate Whole(shared: Dir<SharedName, Bytes>, node: Option<Node<Listing>>) {
    node.Some? ==> node.value.File? && node.value.synced && AllSafe(shared, node.value.content)
  }

  /** The name holds a file with the bytes it stands for. */
  predicate Holds(node: Option<Node<Bytes>>, id: ContentId) {
    node.Some? && node.value.File? && ContentIdOf(node.value.content) == id
  }

  /** A table the process finds good is there for good. */
  ghost predicate SettledTable(shared: Dir<SharedName, Bytes>, id: ContentId) {
    Holds(Get(shared, Table(id)), id) ==> Certain(shared, Table(id), id)
  }

  /** All but the one whose rename is not synced yet. */
  ghost predicate Settled(s: State) {
    forall id: ContentId | !(s.op.Renamed? && s.op.todo != [] && id == ContentIdOf(s.op.todo[0].content)) ::
      SettledTable(s.shared, id)
  }

  ghost predicate MetaSettled(s: State) {
    forall no, node | node in Possible(s.meta, Backup(no)) :: node == Get(s.meta, Backup(no))
  }

  /** No backup but those in `unread` lists a table of `batch`. */
  ghost predicate Struck(s: State, batch: set<ContentId>, unread: set<nat>) {
    forall no | Backup(no) in s.meta.live && no !in unread && s.meta.live[Backup(no)].File? ::
      Ids(s.meta.live[Backup(no)].content) !! batch
  }

  ghost predicate OpSound(s: State) {
    match s.op
    case Idle => true
    case Creating(_, _, listed) => AllSafe(s.shared, listed)
    case Writing(_, todo, listed, written) => AllSafe(s.shared, listed)
    case Staged(_, todo, listed) =>
      AllSafe(s.shared, listed) && todo != [] &&
      Get(s.shared, Staging(ContentIdOf(todo[0].content))) == Some(File(todo[0].content, true))
    case Renamed(_, todo, listed) =>
      AllSafe(s.shared, listed) && todo != [] &&
      Get(s.shared, Table(ContentIdOf(todo[0].content))) == Some(File(todo[0].content, true))
    case Rechecking(_, _, listed) => AllSafe(s.shared, listed)
    case MetaWriting(_, listed) => AllSafe(s.shared, listed)
    case MetaStaged(no, listed) => AllSafe(s.shared, listed) && Get(s.meta, MetaStaging(no)) == Some(File(listed, true))
    case MetaRenamed(no, listed) => Get(s.meta, Backup(no)) == Some(File(listed, true))
    case Deleting(_) => true
    case Collecting => true
    case Sweeping(_) => MetaSettled(s)
    case Striking(_, batch, unread) => MetaSettled(s) && Struck(s, batch, unread)
    case Unlinking(_, batch) => MetaSettled(s) && Struck(s, batch, {})
  }

  ghost predicate Inv(s: State) {
    !s.faulty ==> BackupsWhole(s) && Settled(s) && OpSound(s)
  }

  // -------------------------------------------------------------- the disk

  /** Two disks that agree on the tables agree on what is safe. */
  ghost predicate SameTables(a: Dir<SharedName, Bytes>, b: Dir<SharedName, Bytes>) {
    forall id: ContentId ::
      Get(a, Table(id)) == Get(b, Table(id)) && Possible(a, Table(id)) == Possible(b, Table(id))
  }

  /** What keeps each safe table safe keeps the backups whole. */
  ghost predicate KeepsSafe(a: Dir<SharedName, Bytes>, b: Dir<SharedName, Bytes>) {
    forall l: Listed | TableSafe(a, l) :: TableSafe(b, l)
  }

  lemma KeepsListings(a: Dir<SharedName, Bytes>, b: Dir<SharedName, Bytes>, listing: Listing)
    requires KeepsSafe(a, b) && AllSafe(a, listing)
    ensures AllSafe(b, listing)
  {
  }

  lemma KeepsBackups(s: State, shared: Dir<SharedName, Bytes>)
    requires KeepsSafe(s.shared, shared) && BackupsWhole(s)
    ensures BackupsWhole(s.(shared := shared))
  {
    forall no, node | node in Possible(s.meta, Backup(no)) ensures Whole(shared, node) {
      assert Whole(s.shared, node);
      if node.Some? {
        KeepsListings(s.shared, shared, node.value.content);
      }
    }
  }

  lemma SameTablesKeep(a: Dir<SharedName, Bytes>, b: Dir<SharedName, Bytes>)
    requires SameTables(a, b)
    ensures KeepsSafe(a, b)
    ensures forall id: ContentId :: SettledTable(a, id) ==> SettledTable(b, id)
  {
    forall l: Listed | TableSafe(a, l) ensures TableSafe(b, l) {
      assert Possible(a, Table(l.id)) == Possible(b, Table(l.id));
    }
    forall id: ContentId | SettledTable(a, id) ensures SettledTable(b, id) {
      assert Get(a, Table(id)) == Get(b, Table(id)) && Possible(a, Table(id)) == Possible(b, Table(id));
    }
  }

  lemma SyncKeeps(d: Dir<SharedName, Bytes>)
    ensures KeepsSafe(d, SyncDir(d))
    ensures forall id: ContentId :: SettledTable(d, id) ==> SettledTable(SyncDir(d), id)
  {
    forall l: Listed | TableSafe(d, l) ensures TableSafe(SyncDir(d), l) {
      assert forall node | node in Possible(SyncDir(d), Table(l.id)) :: node in Possible(d, Table(l.id));
    }
    forall id: ContentId | SettledTable(d, id) ensures SettledTable(SyncDir(d), id) {
      assert forall node | node in Possible(SyncDir(d), Table(id)) :: node in Possible(d, Table(id));
      assert Get(SyncDir(d), Table(id)) == Get(d, Table(id));
    }
  }

  lemma PowerCutKeeps(d: Dir<SharedName, Bytes>, after: Dir<SharedName, Bytes>)
    requires Crashed(d, after)
    ensures KeepsSafe(d, after)
    ensures forall id: ContentId :: SettledTable(after, id)
  {
    forall l: Listed | TableSafe(d, l) ensures TableSafe(after, l) {
      CertainSurvives(d, after, Table(l.id), l.id);
    }
    forall id: ContentId ensures SettledTable(after, id) {
      assert ComesBack(d, Table(id), Get(after, Table(id)));
    }
  }

  // ------------------------------------------------------ steps on tables

  lemma StagingStepKeepsInv(s: State, step: Step)
    requires Inv(s) && Enabled(s, step) && !s.faulty
    requires step.Write? || step.SyncStaging? || (step.Verify? && Apply(s, step).op.Writing?)
    ensures Inv(Apply(s, step))
  {
    var s' := Apply(s, step);
    assert SameTables(s.shared, s'.shared);
    SameTablesKeep(s.shared, s'.shared);
    KeepsBackups(s, s'.shared);
    KeepsListings(s.shared, s'.shared, s.op.listed);
  }

  /** A table listed is either the one being put in place, with the same bytes,
      or another. */
  lemma RenameKeepsInv(s: State, step: Step)
    requires Inv(s) && Enabled(s, step) && !s.faulty && step.RenameStaging?
    ensures Inv(Apply(s, step))
  {
    var s' := Apply(s, step);
    var id := ContentIdOf(s.op.todo[0].content);
    assert s'.shared.live[Table(id)] == File(id, true);
    forall other: ContentId | other != id
      ensures Get(s.shared, Table(other)) == Get(s'.shared, Table(other))
           && Possible(s.shared, Table(other)) == Possible(s'.shared, Table(other))
    {
    }
    forall l: Listed | TableSafe(s.shared, l) ensures TableSafe(s'.shared, l) {
      if l.id == id {
        assert Possible(s'.shared, Table(id)) == {Some(File(id, true))} + Possible(s.shared, Table(id));
      }
    }
    KeepsBackups(s, s'.shared);
    KeepsListings(s.shared, s'.shared, s.op.listed);
    forall other: ContentId | other != id ensures SettledTable(s'.shared, other) {
      assert SettledTable(s.shared, other);
    }
  }

  lemma SyncSharedKeepsInv(s: State, step: Step)
    requires Inv(s) && Enabled(s, step) && !s.faulty && (step.SyncShared? || step.EndBatch?)
    ensures Inv(Apply(s, step))
  {
    var s' := Apply(s, step);
    if s'.shared == SyncDir(s.shared) {
      SyncKeeps(s.shared);
      KeepsBackups(s, s'.shared);
      if step.SyncShared? {
        KeepsListings(s.shared, s'.shared, s.op.listed);
      }
    }
  }

  /** A table that verifies is safe to list: outside the window between a
      rename and its sync every table seen is settled. */
  lemma VerifiedIsSafe(s: State, src: Source)
    requires Settled(s) && !s.op.Renamed? && Verifies(Get(s.shared, Table(ContentIdOf(src.content))), src)
    ensures TableSafe(s.shared, Listed(ContentIdOf(src.content), src.size))
  {
    assert SettledTable(s.shared, ContentIdOf(src.content));
  }

  lemma ListingStepKeepsInv(s: State, step: Step)
    requires Inv(s) && Enabled(s, step) && !s.faulty
    requires step.Recheck? || (step.Verify? && !Apply(s, step).op.Writing?)
    ensures Inv(Apply(s, step))
  {
    var src := s.op.todo[0];
    if Verifies(Get(s.shared, Table(ContentIdOf(src.content))), src) {
      VerifiedIsSafe(s, src);
    }
  }

  lemma RemoveTableKeepsInv(s: State, step: Step)
    requires Inv(s) && Enabled(s, step) && !s.faulty && step.RemoveTable?
    ensures Inv(Apply(s, step))
  {
    var s' := Apply(s, step);
    forall id: ContentId ensures SettledTable(s'.shared, id) {
      assert SettledTable(s.shared, id);
      if id != step.id {
        assert Possible(s'.shared, Table(id)) == Possible(s.shared, Table(id));
      }
    }
    forall no, node | node in Possible(s.meta, Backup(no)) ensures Whole(s'.shared, node) {
      assert node == Get(s.meta, Backup(no)) && Whole(s.shared, node);
      if node.Some? {
        assert Ids(node.value.content) !! s.op.batch;
        UnlistedRemoval(s.shared, node.value.content, step.id);
      }
    }
  }

  lemma UnlistedRemoval(shared: Dir<SharedName, Bytes>, listing: Listing, id: ContentId)
    requires AllSafe(shared, listing) && id !in Ids(listing)
    ensures AllSafe(Remove(shared, Table(id)), listing)
  {
    forall i | 0 <= i < |listing| ensures TableSafe(Remove(shared, Table(id)), listing[i]) {
      assert TableSafe(shared, listing[i]) && listing[i].id in Ids(listing);
      assert Possible(Remove(shared, Table(id)), Table(listing[i].id)) == Possible(shared, Table(listing[i].id));
    }
  }

  // ---------------------------------------------------- steps on metadata

  lemma StagingMetaKeepsInv(s: State, step: Step)
    requires Inv(s) && Enabled(s, step) && !s.faulty && (step.StageMeta? || step.SyncMetaFile?)
    ensures Inv(Apply(s, step))
  {
    var s' := Apply(s, step);
    assert forall no :: Possible(s'.meta, Backup(no)) == Possible(s.meta, Backup(no));
  }

  lemma RenameMetaKeepsInv(s: State, step: Step)
    requires Inv(s) && Enabled(s, step) && !s.faulty && step.RenameMeta?
    ensures Inv(Apply(s, step))
  {
    var s' := Apply(s, step);
    forall no, node | node in Possible(s'.meta, Backup(no)) ensures Whole(s'.shared, node) {
      if node in Possible(s.meta, Backup(no)) {
        assert Whole(s.shared, node);
      }
    }
  }

  lemma SyncMetaKeepsInv(s: State, step: Step)
    requires Inv(s) && Enabled(s, step) && !s.faulty && (step.SyncMeta? || step.SyncBeforeCollecting?)
    ensures Inv(Apply(s, step))
  {
    var s' := Apply(s, step);
    forall no, node | node in Possible(s'.meta, Backup(no)) ensures Whole(s'.shared, node) {
      assert node in Possible(s.meta, Backup(no));
      assert Whole(s.shared, node);
    }
  }

  lemma RemoveMetaKeepsInv(s: State, step: Step)
    requires Inv(s) && Enabled(s, step) && !s.faulty && step.RemoveMeta?
    ensures Inv(Apply(s, step))
  {
    var s' := Apply(s, step);
    forall no, node | node in Possible(s'.meta, Backup(no)) ensures Whole(s'.shared, node) {
      if node.Some? {
        assert node in Possible(s.meta, Backup(no));
        assert Whole(s.shared, node);
      }
    }
  }

  lemma SweepStepKeepsInv(s: State, step: Step)
    requires Inv(s) && Enabled(s, step) && !s.faulty
    requires step.TakeBatch? || step.ReadListing? || step.EndStrike? || step.EndCollection?
    ensures Inv(Apply(s, step))
  {
    if step.TakeBatch? {
      assert forall no | Backup(no) in s.meta.live :: no in LiveBackups(s);
    }
  }

  lemma PowerCutKeepsInv(s: State, step: Step)
    requires Inv(s) && Enabled(s, step) && !s.faulty && step.PowerCut?
    ensures Inv(Apply(s, step))
  {
    var s' := Apply(s, step);
    PowerCutKeeps(s.shared, s'.shared);
    KeepsBackups(s, s'.shared);
    forall no, node | node in Possible(s'.meta, Backup(no)) ensures Whole(s'.shared, node) {
      assert ComesBack(s.meta, Backup(no), node);
      var before :| before in Possible(s.meta, Backup(no)) && Survives(before, node);
      assert Whole(s'.shared, before);
    }
  }

  /** A process that died at any step, and the open that follows: it syncs both
      directories before anything else. */
  lemma ReopenKeepsInv(s: State)
    requires Inv(s) && !s.faulty
    ensures Inv(Apply(s, Reopen))
  {
    SyncKeeps(s.shared);
    KeepsBackups(s, SyncDir(s.shared));
    forall no: nat, node | node in Possible(SyncDir(s.meta), Backup(no)) ensures node in Possible(s.meta, Backup(no)) {
    }
  }

  lemma QuietStepKeepsInv(s: State, step: Step)
    requires Inv(s) && Enabled(s, step) && !s.faulty
    requires step.BeginCreate? || step.BeginDelete? || step.Fail? || step.Damage?
    ensures Inv(Apply(s, step))
  {
  }

  lemma StepKeepsInv(s: State, step: Step)
    requires Inv(s) && Enabled(s, step)
    ensures Inv(Apply(s, step))
  {
    if !s.faulty {
      match step
      case Verify => if Apply(s, step).op.Writing? { StagingStepKeepsInv(s, step); } else { ListingStepKeepsInv(s, step); }
      case Write(_) => StagingStepKeepsInv(s, step);
      case SyncStaging => StagingStepKeepsInv(s, step);
      case RenameStaging => RenameKeepsInv(s, step);
      case SyncShared(_) => SyncSharedKeepsInv(s, step);
      case EndBatch(_) => SyncSharedKeepsInv(s, step);
      case Recheck => ListingStepKeepsInv(s, step);
      case StageMeta(_) => StagingMetaKeepsInv(s, step);
      case SyncMetaFile => StagingMetaKeepsInv(s, step);
      case RenameMeta => RenameMetaKeepsInv(s, step);
      case SyncMeta(_) => SyncMetaKeepsInv(s, step);
      case SyncBeforeCollecting(_) => SyncMetaKeepsInv(s, step);
      case RemoveMeta => RemoveMetaKeepsInv(s, step);
      case RemoveTable(_) => RemoveTableKeepsInv(s, step);
      case PowerCut(_, _) => PowerCutKeepsInv(s, step);
      case Reopen => ReopenKeepsInv(s);
      case BeginCreate(_, _) => QuietStepKeepsInv(s, step);
      case BeginDelete(_) => QuietStepKeepsInv(s, step);
      case Fail => QuietStepKeepsInv(s, step);
      case Damage(_) => QuietStepKeepsInv(s, step);
      case TakeBatch(_) => SweepStepKeepsInv(s, step);
      case ReadListing(_) => SweepStepKeepsInv(s, step);
      case EndStrike => SweepStepKeepsInv(s, step);
      case EndCollection => SweepStepKeepsInv(s, step);
    }
  }

  lemma {:induction false} StepsKeepInv(states: seq<State>, steps: seq<Step>, i: nat)
    requires Steps(states, steps) && Inv(states[0]) && i < |states|
    ensures Inv(states[i])
  {
    if i > 0 {
      assert StepAt(states, steps, i - 1);
      StepsKeepInv(states, steps, i - 1);
      StepKeepsInv(states[i - 1], steps[i - 1]);
    }
  }

  lemma RunKeepsInv(states: seq<State>, steps: seq<Step>, i: nat)
    requires Run(states, steps) && i < |states|
    ensures Inv(states[i])
  {
    StepsKeepInv(states, steps, i);
  }

  // ------------------------------------------------------------- results

  /** In every run, power cuts and failures at any step included, each backup
      the repository shows has every table it lists in `shared/`, durable, of
      the size listed and with the bytes its content id names. */
  lemma SurvivingBackupsAreWhole(states: seq<State>, steps: seq<Step>, i: nat, no: nat, k: nat)
    requires Run(states, steps) && i < |states| && !states[i].faulty
    requires Backup(no) in states[i].meta.live
    ensures var node := states[i].meta.live[Backup(no)];
            && node.File?
            && (k < |node.content| ==>
                  var l := node.content[k];
                  Certain(states[i].shared, Table(l.id), l.id) && |l.id| == l.size)
  {
    RunKeepsInv(states, steps, i);
    var node := Get(states[i].meta, Backup(no));
    assert node in Possible(states[i].meta, Backup(no));
    assert Whole(states[i].shared, node);
    if k < |node.value.content| {
      assert TableSafe(states[i].shared, node.value.content[k]);
    }
  }

  /** The create that returns has made its backup durable. */
  lemma CreatedIsDurable(states: seq<State>, steps: seq<Step>, i: nat)
    requires Run(states, steps) && i < |steps| && steps[i] == SyncMeta(true) && !states[i].faulty
    ensures states[i].op.MetaRenamed? && Certain(states[i + 1].meta, Backup(states[i].op.no), states[i].op.listed)
  {
    assert StepAt(states, steps, i);
    RunKeepsInv(states, steps, i);
  }

  /** When the collection removes a table, no backup lists it, whether its
      metadata can be read or not, nor any a power cut could bring back. */
  lemma RemovedTablesAreUnlisted(states: seq<State>, steps: seq<Step>, i: nat, no: nat)
    requires Run(states, steps) && i < |steps| && steps[i].RemoveTable? && !states[i].faulty
    ensures forall node | node in Possible(states[i].meta, Backup(no)) && node.Some? ::
      node.value.File? && steps[i].id !in Ids(node.value.content)
  {
    assert StepAt(states, steps, i);
    RunKeepsInv(states, steps, i);
    forall node | node in Possible(states[i].meta, Backup(no)) && node.Some?
      ensures node.value.File? && steps[i].id !in Ids(node.value.content)
    {
      assert Whole(states[i].shared, node) && node == Get(states[i].meta, Backup(no));
    }
  }

  /** The listing of `no` was read, and could be, at some step of the sweep
      under way at `i`. */
  ghost predicate WasRead(states: seq<State>, steps: seq<Step>, i: nat, no: nat) {
    exists k :: 0 <= k < i && k < |steps| && k < |states| && steps[k] == ReadListing(no) && no !in states[k].unreadable
                && forall m | k < m < i && m < |steps| :: !steps[m].TakeBatch?
  }

  lemma JustRead(states: seq<State>, steps: seq<Step>, i: nat, no: nat)
    requires 0 < i <= |steps| && i <= |states|
    requires steps[i - 1] == ReadListing(no) && no !in states[i - 1].unreadable
    ensures WasRead(states, steps, i, no)
  {
  }

  lemma StillRead(states: seq<State>, steps: seq<Step>, i: nat, no: nat)
    requires 0 < i <= |steps| && WasRead(states, steps, i - 1, no) && !steps[i - 1].TakeBatch?
    ensures WasRead(states, steps, i, no)
  {
    var k :| 0 <= k < i - 1 && k < |steps| && k < |states| && steps[k] == ReadListing(no) && no !in states[k].unreadable
             && forall m | k < m < i - 1 && m < |steps| :: !steps[m].TakeBatch?;
    assert steps[k] == ReadListing(no);
  }

  /** The sweep under way is past the listing of `no`. */
  predicate PastListing(s: State, no: nat) {
    s.op.Unlinking? || (s.op.Striking? && no !in s.op.unread)
  }

  /** How a sweep got past a listing: it read it just now, or before. */
  lemma SweepComesFrom(s: State, step: Step, no: nat)
    requires Enabled(s, step) && PastListing(Apply(s, step), no) && Backup(no) in Apply(s, step).meta.live
    ensures !step.TakeBatch? && Backup(no) in s.meta.live
    ensures (step == ReadListing(no) && no !in s.unreadable) || PastListing(s, no)
  {
    assert Backup(no) in s.meta.live ==> no in LiveBackups(s);
  }

  lemma {:induction false} SweepsReadEveryListing(states: seq<State>, steps: seq<Step>, i: nat, no: nat)
    requires Run(states, steps) && i < |states| && Backup(no) in states[i].meta.live && PastListing(states[i], no)
    ensures WasRead(states, steps, i, no)
  {
    assert i > 0 && StepAt(states, steps, i - 1);
    SweepComesFrom(states[i - 1], steps[i - 1], no);
    if steps[i - 1] == ReadListing(no) && no !in states[i - 1].unreadable {
      JustRead(states, steps, i, no);
    } else {
      SweepsReadEveryListing(states, steps, i - 1, no);
      StillRead(states, steps, i, no);
    }
  }

  /** No table is removed while the listing of a backup still there has not
      been read: one that cannot be read stops the collection instead. */
  lemma UnreadableListingsStopTheCollection(states: seq<State>, steps: seq<Step>, i: nat, no: nat)
    requires Run(states, steps) && i < |steps|
    ensures steps[i].RemoveTable? && Backup(no) in states[i].meta.live ==> WasRead(states, steps, i, no)
    ensures steps[i] == ReadListing(no) && no in states[i].unreadable ==>
      states[i + 1].op.Idle? && states[i + 1].shared == states[i].shared
  {
    assert StepAt(states, steps, i);
    if steps[i].RemoveTable? && Backup(no) in states[i].meta.live {
      SweepsReadEveryListing(states, steps, i, no);
    }
  }

  // ------------------------------------------------- a sync that fails

  /** A backup the repository shows lists a table that is gone or changed. */
  ghost predicate Broken(s: State) {
    exists no, k :: Backup(no) in s.meta.live && s.meta.live[Backup(no)].File?
      && 0 <= k < |s.meta.live[Backup(no)].content|
      && var id := s.meta.live[Backup(no)].content[k].id; !Holds(Get(s.shared, Table(id)), id)
  }

  ghost predicate Reaches(from: State, to: State) {
    exists states, steps :: Steps(states, steps) && states[0] == from && states[|states| - 1] == to
  }

  lemma ReachesStep(from: State, mid: State, step: Step)
    requires Reaches(from, mid) && Enabled(mid, step)
    ensures Reaches(from, Apply(mid, step))
  {
    var states, steps :| Steps(states, steps) && states[0] == from && states[|states| - 1] == mid;
    var more, most := states + [Apply(mid, step)], steps + [step];
    forall i | 0 <= i < |most| ensures StepAt(more, most, i) {
      assert i < |steps| ==> StepAt(states, steps, i);
    }
    assert Steps(more, most);
  }

  lemma ReachesSelf(s: State)
    ensures Reaches(s, s)
  {
    assert Steps([s], []);
  }

  /** The state with what failed so far forgotten: the same disk and the same
      operation. */
  ghost function Forgiven(s: State): State {
    s.(faulty := false)
  }

  /** Nothing the repository does from here on, and no power cut, breaks a
      backup, as long as no further sync of `shared/` fails after a rename,
      whatever failed before. */
  ghost predicate SafeFromNowOn(s: State) {
    forall later | Reaches(Forgiven(s), later) && !later.faulty :: !Broken(later)
  }

  /** Exactly when a repository with whole backups is safe from now on: when
      every table that verifies is settled. Reuse is why it is needed: such a
      table is listed by the next backup without another sync. */
  lemma SafeExactlyWhenSettled(s: State)
    requires s.op.Idle? && BackupsWhole(s)
    ensures SafeFromNowOn(s) <==> forall id: ContentId :: SettledTable(s.shared, id)
  {
    var t := Forgiven(s);
    if forall id: ContentId :: SettledTable(s.shared, id) {
      forall later | Reaches(t, later) && !later.faulty ensures !Broken(later) {
        SettledStaysWhole(t, later);
      }
    } else {
      var id: ContentId :| !SettledTable(s.shared, id);
      var no := PastEvery(LiveBackups(t));
      assert forall n: nat | Backup(n) in t.meta.live :: n in LiveBackups(t);
      var lost := UnsettledTablesCanBeLost(t, id, no);
    }
  }

  /** A sync of `shared/` fails after a rename. */
  predicate FailsToSync(s: State, step: Step) {
    step == SyncShared(false) || (step.Fail? && s.op.Renamed?)
  }

  /** What a failed sync does, in any run in which it is the first: it breaks no
      backup, and the repository is safe to go on with if and only if the table
      it renamed was there for good already. */
  lemma AFailedSyncIsSafeExactlyWhen(states: seq<State>, steps: seq<Step>, i: nat)
    requires Run(states, steps) && i < |steps| && !states[i].faulty && FailsToSync(states[i], steps[i])
    ensures states[i].op.Renamed? && states[i].op.todo != [] && states[i + 1].faulty && BackupsWhole(states[i + 1])
    ensures SafeFromNowOn(states[i + 1]) <==>
      SettledTable(states[i].shared, ContentIdOf(states[i].op.todo[0].content))
  {
    assert StepAt(states, steps, i);
    RunKeepsInv(states, steps, i);
    SafeExactlyWhenSettled(states[i + 1]);
  }

  // ------------------------------------------------------ opening it again

  /** No table's name stands for, or can come back as, bytes that were not
      synced; nor does the staging file about to be renamed to one. */
  ghost predicate TablesSynced(s: State) {
    && (forall id: ContentId, node | node in Possible(s.shared, Table(id)) && node.Some? && node.value.File? ::
          node.value.synced)
    && (s.op.Staged? && s.op.todo != [] ==>
          forall node | Get(s.shared, Staging(ContentIdOf(s.op.todo[0].content))) == Some(node) && node.File? :: node.synced)
  }

  predicate OnStaging(step: Step) {
    step.Verify? || step.Write? || step.SyncStaging? || step.RenameStaging?
  }

  lemma StagingKeepsTablesSynced(s: State, step: Step)
    requires TablesSynced(s) && Enabled(s, step) && OnStaging(step)
    ensures TablesSynced(Apply(s, step))
  {
  }

  lemma PowerCutKeepsTablesSynced(s: State, step: Step)
    requires TablesSynced(s) && Enabled(s, step) && step.PowerCut?
    ensures TablesSynced(Apply(s, step))
  {
    forall id: ContentId, node | node in Possible(step.shared, Table(id)) && node.Some? && node.value.File?
      ensures node.value.synced
    {
      assert ComesBack(s.shared, Table(id), Get(step.shared, Table(id)));
    }
  }

  lemma StepKeepsTablesSynced(s: State, step: Step)
    requires TablesSynced(s) && Enabled(s, step)
    ensures TablesSynced(Apply(s, step))
  {
    if OnStaging(step) {
      StagingKeepsTablesSynced(s, step);
    } else if step.PowerCut? {
      PowerCutKeepsTablesSynced(s, step);
    }
  }

  lemma {:induction false} RunKeepsTablesSynced(states: seq<State>, steps: seq<Step>, i: nat)
    requires Run(states, steps) && i < |states|
    ensures TablesSynced(states[i])
  {
    if i > 0 {
      assert StepAt(states, steps, i - 1);
      RunKeepsTablesSynced(states, steps, i - 1);
      StepKeepsTablesSynced(states[i - 1], steps[i - 1]);
    }
  }

  lemma ReopenSettles(s: State)
    requires TablesSynced(s) && BackupsWhole(s)
    ensures BackupsWhole(Apply(s, Reopen)) && forall id: ContentId :: SettledTable(Apply(s, Reopen).shared, id)
  {
    SyncKeeps(s.shared);
    KeepsBackups(s, SyncDir(s.shared));
    var t := Apply(s, Reopen);
    forall no: nat, node | node in Possible(t.meta, Backup(no)) ensures Whole(t.shared, node) {
      assert node in Possible(s.meta, Backup(no));
      assert Whole(s.(shared := t.shared).shared, node);
    }
    forall id: ContentId ensures SettledTable(t.shared, id) {
      assert Possible(t.shared, Table(id)) == {Get(s.shared, Table(id))};
      assert Get(s.shared, Table(id)) in Possible(s.shared, Table(id));
    }
  }

  /** Opening the repository again puts right what failed syncs left, in every
      run and at whatever step the process died: if no backup has lost a table
      yet, every table that verifies is there for good and none will be lost. */
  lemma ReopenMakesItSafe(states: seq<State>, steps: seq<Step>, i: nat)
    requires Run(states, steps) && i < |states| && BackupsWhole(states[i])
    ensures SafeFromNowOn(Apply(states[i], Reopen))
  {
    RunKeepsTablesSynced(states, steps, i);
    ReopenSettles(states[i]);
    SafeExactlyWhenSettled(Apply(states[i], Reopen));
  }

  lemma ForgivenStep(s: State, step: Step)
    requires Enabled(s, step) && !FailsToSync(s, step)
    ensures Enabled(Forgiven(s), step) && Apply(Forgiven(s), step) == Forgiven(Apply(s, step))
  {
  }

  /** So from a reopen with no backup broken on, and until the next such sync
      fails, each backup the repository shows has its tables, however many
      syncs failed before. */
  lemma {:induction false} WholeAgainAfterReopen(states: seq<State>, steps: seq<Step>, i: nat, j: nat)
    requires Run(states, steps) && i < j < |states| && steps[i].Reopen? && BackupsWhole(states[i])
    requires forall k | i < k < j :: !FailsToSync(states[k], steps[k])
    ensures Inv(Forgiven(states[j])) && BackupsWhole(states[j]) && !Broken(states[j])
  {
    assert StepAt(states, steps, j - 1);
    if j == i + 1 {
      RunKeepsTablesSynced(states, steps, i);
      ReopenSettles(states[i]);
    } else {
      WholeAgainAfterReopen(states, steps, i, j - 1);
      ForgivenStep(states[j - 1], steps[j - 1]);
      StepKeepsInv(Forgiven(states[j - 1]), steps[j - 1]);
    }
    ReachesSelf(Forgiven(states[j]));
    SettledStaysWhole(Forgiven(states[j]), Forgiven(states[j]));
  }

  lemma SettledStaysWhole(s: State, later: State)
    requires Inv(s) && Reaches(s, later) && !later.faulty
    ensures !Broken(later)
  {
    var states, steps :| Steps(states, steps) && states[0] == s && states[|states| - 1] == later;
    StepsKeepInv(states, steps, |states| - 1);
    forall no, k | Backup(no) in later.meta.live && later.meta.live[Backup(no)].File?
                   && 0 <= k < |later.meta.live[Backup(no)].content|
      ensures var id := later.meta.live[Backup(no)].content[k].id; Holds(Get(later.shared, Table(id)), id)
    {
      var node := Get(later.meta, Backup(no));
      assert node in Possible(later.meta, Backup(no)) && Whole(later.shared, node);
      var l := node.value.content[k];
      assert TableSafe(later.shared, l);
      CertainNow(later.shared, Table(l.id), l.id);
    }
  }

  lemma {:induction false} PastEvery(nos: set<nat>) returns (no: nat)
    ensures forall n | n in nos :: n < no
  {
    if nos == {} {
      no := 1;
    } else {
      var n :| n in nos;
      var rest := PastEvery(nos - {n});
      no := Max(rest, n + 1);
      assert nos == (nos - {n}) + {n};
    }
  }

  /** A table found good and not settled can be lost with a backup that lists
      it, every later sync succeeding. */
  lemma UnsettledTablesCanBeLost(s: State, id: ContentId, no: nat) returns (lost: State)
    requires s.op.Idle? && !SettledTable(s.shared, id)
    requires forall n: nat | Backup(n) in s.meta.live :: n < no
    ensures Reaches(s, lost) && lost.faulty == s.faulty && Broken(lost)
  {
    var listed := ReuseListed(s, id, no);
    var backed := MetaWritten(s, listed);
    var shared := AfterLoss(s.shared, id);
    var meta := Rebooted(backed.meta);
    ReachesStep(s, backed, PowerCut(shared, meta));
    lost := Apply(backed, PowerCut(shared, meta));
    assert Backup(no) in lost.meta.live && lost.meta.live[Backup(no)] == File([Listed(id, |id|)], true);
    assert lost.meta.live[Backup(no)].content[0].id == id;
  }

  /** A create that finds its only table in place lists it and copies
      nothing. */
  lemma ReuseListed(s: State, id: ContentId, no: nat) returns (listed: State)
    requires s.op.Idle? && Holds(Get(s.shared, Table(id)), id)
    requires forall n: nat | Backup(n) in s.meta.live :: n < no
    ensures Reaches(s, listed) && listed == s.(op := Creating(no, [], [Listed(id, |id|)]))
  {
    var src := Source(id, |id|);
    ReachesSelf(s);
    ReachesStep(s, s, BeginCreate(no, [src]));
    var begun := Apply(s, BeginCreate(no, [src]));
    ReachesStep(s, begun, Verify);
    listed := Apply(begun, Verify);
    assert [src][1..] == [] && [] + [Listed(id, |id|)] == [Listed(id, |id|)];
  }

  lemma MetaWritten(from: State, s: State) returns (backed: State)
    requires s.op.Creating? && s.op.todo == [] && Reaches(from, s)
    ensures Reaches(from, backed) && backed.shared == s.shared && backed.faulty == s.faulty
    ensures Get(backed.meta, Backup(s.op.no)) == Some(File(s.op.listed, true)) && backed.op.Idle?
    ensures backed.meta.lost == map[] && forall n: nat | n != s.op.no :: Get(backed.meta, Backup(n)) == Get(s.meta, Backup(n))
  {
    var staged := MetaStagedFrom(from, s);
    ReachesStep(from, staged, RenameMeta);
    var renamed := Apply(staged, RenameMeta);
    ReachesStep(from, renamed, SyncMeta(true));
    backed := Apply(renamed, SyncMeta(true));
  }

  lemma MetaStagedFrom(from: State, s: State) returns (staged: State)
    requires s.op.Creating? && s.op.todo == [] && Reaches(from, s)
    ensures Reaches(from, staged) && staged.shared == s.shared && staged.faulty == s.faulty
    ensures staged.op == MetaStaged(s.op.no, s.op.listed)
    ensures Get(staged.meta, MetaStaging(s.op.no)) == Some(File(s.op.listed, true))
    ensures forall n: nat :: Get(staged.meta, Backup(n)) == Get(s.meta, Backup(n))
  {
    ReachesStep(from, s, StageMeta([]));
    var staging := Apply(s, StageMeta([]));
    ReachesStep(from, staging, SyncMetaFile);
    staged := Apply(staging, SyncMetaFile);
  }

  /** A power cut that keeps everything but one table that is not certain. */
  lemma AfterLoss(d: Dir<SharedName, Bytes>, id: ContentId) returns (after: Dir<SharedName, Bytes>)
    requires !Certain(d, Table(id), id)
    ensures Crashed(d, after) && !Holds(Get(after, Table(id)), id)
  {
    var node :| node in Possible(d, Table(id)) && node != Some(File(id, true));
    var back := BadReturn(node, id);
    var others := map n | n in d.live && n != Table(id) :: Hardened(d.live[n]);
    after := Dir(if back.Some? then others[Table(id) := back.value] else others, map[]);
    assert Get(after, Table(id)) == back;
    forall n ensures ComesBack(d, n, Get(after, n)) {
      if n == Table(id) {
        assert node in Possible(d, n) && Survives(node, Get(after, n));
      } else {
        assert Get(d, n) in Possible(d, n) && Survives(Get(d, n), Get(after, n));
      }
    }
  }

  lemma BadReturn(node: Option<Node<Bytes>>, id: ContentId) returns (back: Option<Node<Bytes>>)
    requires node != Some(File(id, true))
    ensures Survives(node, back) && !Holds(back, id)
  {
    if node.Some? && node.value.File? {
      back := Some(File(if node.value.synced then node.value.content else id + [0], true));
    } else {
      back := node;
    }
  }

  /** A failed sync leaves such a table: renamed, found good, not settled. So
      the promise needs the syncs of `shared/` to succeed. */
  lemma AFailedSyncCanLoseABackup() returns (lost: State)
    ensures Reaches(Init(), lost) && Broken(lost)
  {
    var id: ContentId := [7];
    var s := FirstTableStaged(id);
    ReachesStep(Init(), s, RenameStaging);
    var renamed := Apply(s, RenameStaging);
    ReachesStep(Init(), renamed, SyncShared(false));
    var failed := Apply(renamed, SyncShared(false));
    assert Get(failed.shared, Table(id)) == Some(File(id, true));
    assert None in Possible(failed.shared, Table(id));
    lost := UnsettledTablesCanBeLost(failed, id, 1);
    ReachesOn(Init(), failed, lost);
  }

  lemma FirstTableStaged(id: ContentId) returns (s: State)
    requires |id| == 1
    ensures Reaches(Init(), s) && s.meta == Init().meta && s.op == Staged(1, [Source(id, 1)], [])
    ensures Table(id) !in s.shared.live && Get(s.shared, Staging(id)) == Some(File(id, true))
  {
    var src := Source(id, 1);
    ReachesSelf(Init());
    ReachesStep(Init(), Init(), BeginCreate(1, [src]));
    s := Apply(Init(), BeginCreate(1, [src]));
    ReachesStep(Init(), s, Verify);
    s := Apply(s, Verify);
    ReachesStep(Init(), s, Write(1));
    s := Apply(s, Write(1));
    ReachesStep(Init(), s, SyncStaging);
    s := Apply(s, SyncStaging);
  }

  lemma ReachesOn(a: State, b: State, c: State)
    requires Reaches(a, b) && Reaches(b, c)
    ensures Reaches(a, c)
  {
    var states, steps :| Steps(states, steps) && states[0] == a && states[|states| - 1] == b;
    var more, most :| Steps(more, most) && more[0] == b && more[|more| - 1] == c;
    var all, every := states + more[1..], steps + most;
    forall i | 0 <= i < |every| ensures StepAt(all, every, i) {
      if i < |steps| {
        assert StepAt(states, steps, i);
      } else {
        assert StepAt(more, most, i - |steps|);
        assert all[i] == more[i - |steps|] && all[i + 1] == more[i - |steps| + 1];
      }
    }
    assert Steps(all, every);
  }
}
