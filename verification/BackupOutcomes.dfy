/** What the operations of a backup repository leave behind: a create lists
    every table of its database, a delete removes what it was asked to, a
    collection that ends leaves only listed tables; and each can run to its
    end. */
module BackupOutcomes {
  import opened Words
  import opened Durable
  import opened BackupStore

  // ------------------------------------------------------------- a create

  /** What a backup of these tables lists: each of them, in order. */
  function ListingOf(sources: seq<Source>): Listing {
    seq(|sources|, k requires 0 <= k < |sources| => Listed(ContentIdOf(sources[k].content), sources[k].size))
  }

  lemma ListingOfFirst(sources: seq<Source>)
    requires sources != []
    ensures ListingOf(sources) == [Listed(ContentIdOf(sources[0].content), sources[0].size)] + ListingOf(sources[1..])
  {
  }

  predicate InCreate(op: Op) {
    op.Creating? || op.Writing? || op.Staged? || op.Renamed? || op.Rechecking?
    || op.MetaWriting? || op.MetaStaged? || op.MetaRenamed?
  }

  function ToDo(op: Op): seq<Source>
    requires InCreate(op)
  {
    if op.MetaWriting? || op.MetaStaged? || op.MetaRenamed? then [] else op.todo
  }

  /** The create is for backup `no`, and what it has listed and what it has
      still to do make up the database's tables. */
  predicate OnCourse(op: Op, no: nat, sources: seq<Source>) {
    InCreate(op) && op.no == no && op.listed + ListingOf(ToDo(op)) == ListingOf(sources)
  }

  lemma CreateGoesOn(s: State, step: Step)
    requires Enabled(s, step) && InCreate(Apply(s, step).op) && !step.BeginCreate?
    ensures InCreate(s.op)
  {
  }

  lemma StepKeepsCourse(s: State, step: Step, no: nat, sources: seq<Source>)
    requires Enabled(s, step) && InCreate(Apply(s, step).op) && !step.BeginCreate? && OnCourse(s.op, no, sources)
    ensures OnCourse(Apply(s, step).op, no, sources)
  {
    if step.Verify? || step.Recheck? {
      ListingKeepsCourse(s, step, no, sources);
    }
  }

  lemma ListingKeepsCourse(s: State, step: Step, no: nat, sources: seq<Source>)
    requires Enabled(s, step) && InCreate(Apply(s, step).op) && (step.Verify? || step.Recheck?)
    requires OnCourse(s.op, no, sources)
    ensures OnCourse(Apply(s, step).op, no, sources)
  {
    var todo := s.op.todo;
    ListingOfFirst(todo);
    assert s.op.listed + ListingOf(todo)
        == (s.op.listed + [Listed(ContentIdOf(todo[0].content), todo[0].size)]) + ListingOf(todo[1..]);
  }

  /** The begin of the create under way. */
  lemma {:induction false} CreateOf(states: seq<State>, steps: seq<Step>, i: nat) returns (b: nat)
    requires Run(states, steps) && i < |states| && InCreate(states[i].op)
    ensures b < i && steps[b].BeginCreate? && forall m | b < m < i :: !steps[m].BeginCreate?
    ensures OnCourse(states[i].op, steps[b].no, steps[b].sources)
  {
    assert i > 0 && StepAt(states, steps, i - 1);
    if steps[i - 1].BeginCreate? {
      b := i - 1;
      assert [] + ListingOf(steps[b].sources) == ListingOf(steps[b].sources);
    } else {
      CreateGoesOn(states[i - 1], steps[i - 1]);
      b := CreateOf(states, steps, i - 1);
      StepKeepsCourse(states[i - 1], steps[i - 1], steps[b].no, steps[b].sources);
    }
  }

  /** A create that returned lists every table of the database it was given,
      copied or reused, in order, with its size; that metadata is durable, and so
      is every one of the tables. */
  lemma CreatedListsEveryTable(states: seq<State>, steps: seq<Step>, i: nat) returns (b: nat)
    requires Run(states, steps) && i < |steps| && steps[i] == SyncMeta(true) && !states[i].faulty
    ensures b < i && steps[b].BeginCreate? && forall m | b < m < i :: !steps[m].BeginCreate?
    ensures Certain(states[i + 1].meta, Backup(steps[b].no), ListingOf(steps[b].sources))
    ensures forall src | src in steps[b].sources ::
      Certain(states[i + 1].shared, Table(ContentIdOf(src.content)), src.content) && src.size == |src.content|
  {
    assert StepAt(states, steps, i);
    b := CreateOf(states, steps, i);
    assert states[i].op.listed + [] == states[i].op.listed;
    CreatedIsDurable(states, steps, i);
    var no, sources := steps[b].no, steps[b].sources;
    CertainNow(states[i + 1].meta, Backup(no), ListingOf(sources));
    forall src | src in sources
      ensures Certain(states[i + 1].shared, Table(ContentIdOf(src.content)), src.content) && src.size == |src.content|
    {
      var k :| 0 <= k < |sources| && sources[k] == src;
      SurvivingBackupsAreWhole(states, steps, i + 1, no, k);
    }
  }

  /** The number a create is about to use is no backup's. */
  ghost predicate FreshNumber(s: State) {
    InCreate(s.op) && !s.op.MetaRenamed? ==> Backup(s.op.no) !in s.meta.live
  }

  lemma StepKeepsFreshNumber(s: State, step: Step)
    requires Enabled(s, step) && FreshNumber(s)
    ensures FreshNumber(Apply(s, step))
  {
  }

  lemma {:induction false} RunKeepsFreshNumber(states: seq<State>, steps: seq<Step>, i: nat)
    requires Run(states, steps) && i < |states|
    ensures FreshNumber(states[i])
  {
    if i > 0 {
      assert StepAt(states, steps, i - 1);
      RunKeepsFreshNumber(states, steps, i - 1);
      StepKeepsFreshNumber(states[i - 1], steps[i - 1]);
    }
  }

  /** No step but a delete's removal or a power cut changes a backup that is
      there: a create never takes the number of one. */
  lemma OnlyDeletesChangeABackup(states: seq<State>, steps: seq<Step>, i: nat, no: nat)
    requires Run(states, steps) && i < |steps| && Backup(no) in states[i].meta.live
    requires !steps[i].PowerCut? && !(steps[i].RemoveMeta? && states[i].op.Deleting? && states[i].op.nos != [] && states[i].op.nos[0] == no)
    ensures Get(states[i + 1].meta, Backup(no)) == Get(states[i].meta, Backup(no))
  {
    assert StepAt(states, steps, i);
    RunKeepsFreshNumber(states, steps, i);
  }

  // -------------------------------------------------- a create can complete

  /** No folder stands where one of the tables goes. */
  ghost predicate NoFolders(shared: Dir<SharedName, Bytes>, sources: seq<Source>) {
    forall k | 0 <= k < |sources| :: Get(shared, Table(ContentIdOf(sources[k].content))) != Some(Folder)
  }

  predicate TrueSizes(sources: seq<Source>) {
    forall k | 0 <= k < |sources| :: sources[k].size == |sources[k].content|
  }

  lemma TableCanBeStaged(from: State, s: State) returns (t: State)
    requires Reaches(from, s) && s.op.Writing? && s.op.todo != [] && s.op.written == 0
    ensures Reaches(from, t) && t.meta == s.meta && t.faulty == s.faulty
    ensures t.op == Staged(s.op.no, s.op.todo, s.op.listed)
    ensures var id := ContentIdOf(s.op.todo[0].content);
      && Get(t.shared, Staging(id)) == Some(File(id, true))
      && forall other :: Get(t.shared, Table(other)) == Get(s.shared, Table(other))
  {
    t := s;
    var content := s.op.todo[0].content;
    if content != [] {
      ReachesStep(from, t, Write(|content|));
      t := Apply(t, Write(|content|));
    }
    ReachesStep(from, t, SyncStaging);
    t := Apply(t, SyncStaging);
  }

  lemma TableCanBePlaced(from: State, s: State) returns (t: State)
    requires Reaches(from, s) && s.op.Staged? && s.op.todo != [] && s.op.todo[0].size == |s.op.todo[0].content|
    requires var id := ContentIdOf(s.op.todo[0].content); Get(s.shared, Staging(id)) == Some(File(id, true))
    ensures Reaches(from, t) && t.meta == s.meta && t.faulty == s.faulty
    ensures var src := s.op.todo[0];
      && t.op == Creating(s.op.no, s.op.todo[1..], s.op.listed + [Listed(ContentIdOf(src.content), src.size)])
      && forall other | other != ContentIdOf(src.content) :: Get(t.shared, Table(other)) == Get(s.shared, Table(other))
    ensures Get(t.shared, Table(ContentIdOf(s.op.todo[0].content))) != Some(Folder)
  {
    ReachesStep(from, s, RenameStaging);
    var renamed := Apply(s, RenameStaging);
    ReachesStep(from, renamed, SyncShared(true));
    var synced := Apply(renamed, SyncShared(true));
    ReachesStep(from, synced, Recheck);
    t := Apply(synced, Recheck);
  }

  lemma TableCanBeStored(from: State, s: State) returns (t: State)
    requires Reaches(from, s) && s.op.Creating? && s.op.todo != []
    requires NoFolders(s.shared, s.op.todo) && TrueSizes(s.op.todo)
    ensures Reaches(from, t) && t.meta == s.meta && t.faulty == s.faulty && NoFolders(t.shared, s.op.todo)
    ensures var src := s.op.todo[0];
      t.op == Creating(s.op.no, s.op.todo[1..], s.op.listed + [Listed(ContentIdOf(src.content), src.size)])
  {
    ReachesStep(from, s, Verify);
    t := Apply(s, Verify);
    if t.op.Writing? {
      t := TableCanBeStaged(from, t);
      t := TableCanBePlaced(from, t);
    }
  }

  lemma {:induction false} TablesCanBeStored(from: State, s: State) returns (t: State)
    requires Reaches(from, s) && s.op.Creating? && NoFolders(s.shared, s.op.todo) && TrueSizes(s.op.todo)
    ensures Reaches(from, t) && t.meta == s.meta && t.faulty == s.faulty
    ensures t.op == Creating(s.op.no, [], s.op.listed + ListingOf(s.op.todo))
    decreases |s.op.todo|
  {
    if s.op.todo == [] {
      t := s;
      assert s.op.listed + ListingOf([]) == s.op.listed;
    } else {
      t := TableCanBeStored(from, s);
      assert NoFolders(t.shared, t.op.todo);
      ListingOfFirst(s.op.todo);
      var src := s.op.todo[0];
      assert (s.op.listed + [Listed(ContentIdOf(src.content), src.size)]) + ListingOf(t.op.todo)
          == s.op.listed + ListingOf(s.op.todo);
      t := TablesCanBeStored(from, t);
    }
  }

  /** A create is never stuck: from any idle repository, for any tables of their
      recorded sizes with no folder in their place, it can run to its end, and
      the backup is there for good beside every other. */
  lemma CreateCanComplete(s: State, no: nat, sources: seq<Source>) returns (t: State)
    requires s.op.Idle? && (forall n: nat | Backup(n) in s.meta.live :: n < no)
    requires NoFolders(s.shared, sources) && TrueSizes(sources)
    ensures Reaches(s, t) && t.op.Idle? && t.faulty == s.faulty
    ensures Certain(t.meta, Backup(no), ListingOf(sources))
    ensures forall n: nat | n != no :: Get(t.meta, Backup(n)) == Get(s.meta, Backup(n))
  {
    ReachesSelf(s);
    ReachesStep(s, s, BeginCreate(no, sources));
    t := TablesCanBeStored(s, Apply(s, BeginCreate(no, sources)));
    assert [] + ListingOf(sources) == ListingOf(sources);
    t := MetaWritten(s, t);
  }

  // ------------------------------------------------------------- a delete

  predicate InDelete(op: Op) {
    op.Deleting? || op.Collecting? || op.Sweeping? || op.Striking? || op.Unlinking?
  }

  /** Of the backups to delete those behind are gone, the others are as the
      delete found them, and once it has synced that is for good. */
  ghost predicate Deleted(s: State, was: State, nos: seq<nat>) {
    && InDelete(s.op)
    && (forall no | no in nos && !(s.op.Deleting? && no in s.op.nos) :: Backup(no) !in s.meta.live)
    && (forall no: nat | no !in nos :: Get(s.meta, Backup(no)) == Get(was.meta, Backup(no)))
    && (s.op.Deleting? ==> forall no | no in s.op.nos :: no in nos)
    && (!s.op.Deleting? && !s.op.Collecting? ==> s.meta.lost == map[])
  }

  lemma DeleteGoesOn(s: State, step: Step)
    requires Enabled(s, step) && InDelete(Apply(s, step).op) && !step.BeginDelete?
    ensures InDelete(s.op)
  {
  }

  lemma StepKeepsDeleted(s: State, step: Step, was: State, nos: seq<nat>)
    requires Enabled(s, step) && InDelete(Apply(s, step).op) && !step.BeginDelete? && Deleted(s, was, nos)
    ensures Deleted(Apply(s, step), was, nos)
  {
    if step.RemoveMeta? {
      RemoveMetaKeepsDeleted(s, was, nos);
    } else if step.SyncBeforeCollecting? {
      SyncKeepsDeleted(s, step, was, nos);
    } else {
      CollectionKeepsMeta(s, step);
    }
  }

  lemma SyncKeepsDeleted(s: State, step: Step, was: State, nos: seq<nat>)
    requires Enabled(s, step) && InDelete(Apply(s, step).op) && step.SyncBeforeCollecting? && Deleted(s, was, nos)
    ensures Deleted(Apply(s, step), was, nos)
  {
  }

  lemma CollectionKeepsMeta(s: State, step: Step)
    requires Enabled(s, step) && InDelete(s.op) && InDelete(Apply(s, step).op)
    requires !step.BeginDelete? && !step.RemoveMeta? && !step.SyncBeforeCollecting?
    ensures var t := Apply(s, step).op;
      && Apply(s, step).meta == s.meta && (t.Deleting? <==> s.op.Deleting?) && (t.Collecting? <==> s.op.Collecting?)
      && (t.Deleting? ==> t.nos == s.op.nos)
  {
  }

  lemma RemoveMetaKeepsDeleted(s: State, was: State, nos: seq<nat>)
    requires s.op.Deleting? && Deleted(s, was, nos)
    ensures Deleted(Apply(s, RemoveMeta), was, nos)
  {
    if s.op.nos != [] {
      assert forall no | no in s.op.nos :: no == s.op.nos[0] || no in s.op.nos[1..];
    }
  }

  lemma {:induction false} DeleteOf(states: seq<State>, steps: seq<Step>, i: nat) returns (b: nat)
    requires Run(states, steps) && i < |states| && InDelete(states[i].op)
    ensures b < i && steps[b].BeginDelete? && Deleted(states[i], states[b], steps[b].nos)
  {
    assert i > 0 && StepAt(states, steps, i - 1);
    if steps[i - 1].BeginDelete? {
      b := i - 1;
    } else {
      DeleteGoesOn(states[i - 1], steps[i - 1]);
      b := DeleteOf(states, steps, i - 1);
      StepKeepsDeleted(states[i - 1], steps[i - 1], states[b], steps[b].nos);
    }
  }

  /** A delete or purge that has removed its metadata and synced it has removed
      exactly the backups it was asked to, for good; the others are as it found
      them. Only then does it look at a table. */
  lemma DeletedIsGone(states: seq<State>, steps: seq<Step>, i: nat) returns (b: nat)
    requires Run(states, steps) && i < |states|
    requires states[i].op.Sweeping? || states[i].op.Striking? || states[i].op.Unlinking?
    ensures b < i && steps[b].BeginDelete?
    ensures forall no | no in steps[b].nos :: Possible(states[i].meta, Backup(no)) == {None}
    ensures forall no: nat | no !in steps[b].nos ::
      && Get(states[i].meta, Backup(no)) == Get(states[b].meta, Backup(no))
      && Possible(states[i].meta, Backup(no)) == {Get(states[b].meta, Backup(no))}
  {
    b := DeleteOf(states, steps, i);
  }

  // --------------------------------------------------------- a collection

  ghost predicate IsListed(s: State, id: ContentId) {
    exists no :: Backup(no) in s.meta.live && s.meta.live[Backup(no)].File? && id in Ids(s.meta.live[Backup(no)].content)
  }

  /** Every table the collection is past is listed. */
  ghost predicate OnlyListedBehind(s: State) {
    && (s.op.Sweeping? ==> forall id | id in LiveTables(s) && id !in s.op.rest :: IsListed(s, id))
    && (s.op.Striking? || s.op.Unlinking? ==>
          forall id | id in LiveTables(s) && id !in s.op.rest && id !in s.op.batch :: IsListed(s, id))
  }

  lemma StepKeepsOnlyListed(s: State, step: Step)
    requires Enabled(s, step) && OnlyListedBehind(s)
    ensures OnlyListedBehind(Apply(s, step))
  {
    var t := Apply(s, step);
    if t.op.Striking? && step.ReadListing? {
      forall id | id in LiveTables(t) && id !in t.op.rest && id !in t.op.batch ensures IsListed(t, id) {
        assert id in LiveTables(s);
        if id in s.op.batch {
          assert id in Ids(s.meta.live[Backup(step.no)].content);
        } else {
          assert IsListed(s, id);
        }
      }
    } else if step.RemoveTable? {
      forall id | id in LiveTables(t) && id !in t.op.rest && id !in t.op.batch ensures IsListed(t, id) {
        assert id in LiveTables(s) && id != step.id;
        assert IsListed(s, id);
      }
    } else if step.TakeBatch? || step.EndStrike? || step.EndBatch? || step.Damage? {
      SameListings(s, t);
    }
  }

  lemma SameListings(s: State, t: State)
    requires t.meta == s.meta && t.shared.live == s.shared.live
    ensures LiveTables(t) == LiveTables(s) && forall id :: IsListed(t, id) <==> IsListed(s, id)
  {
  }

  lemma {:induction false} RunKeepsOnlyListed(states: seq<State>, steps: seq<Step>, i: nat)
    requires Run(states, steps) && i < |states|
    ensures OnlyListedBehind(states[i])
  {
    if i > 0 {
      assert StepAt(states, steps, i - 1);
      RunKeepsOnlyListed(states, steps, i - 1);
      StepKeepsOnlyListed(states[i - 1], steps[i - 1]);
    }
  }

  /** A collection that ran to its end left no table that no backup lists. */
  lemma CollectedLeavesOnlyListed(states: seq<State>, steps: seq<Step>, i: nat, id: ContentId)
    requires Run(states, steps) && i < |steps| && steps[i] == EndCollection && id in LiveTables(states[i + 1])
    ensures IsListed(states[i + 1], id)
  {
    assert StepAt(states, steps, i);
    RunKeepsOnlyListed(states, steps, i);
    SameListings(states[i], states[i + 1]);
  }
}
