/** Restoring a backup into a directory that can lose power at any step, any
    number of attempts one after another. */
module BackupRestore {
  import opened Words
  import opened Durable
  import opened BackupStore

  datatype SstName = Sst(fileId: nat) | SstStaging(fileId: nat)
  datatype RootName = Manifest | ManifestStaging | SstFolder | WalFolder

  type Key = nat

  /** The keys an attempt was given: the current one, and those whose bytes the
      provider has. */
  datatype Provider = NoProvider | Provider(current: Key, held: set<Key>)

  /** One table of a backup: the number it is restored under, its content id,
      its size and the key it is sealed under, if any. */
  datatype Entry = Entry(fileId: nat, id: ContentId, size: nat, sealedUnder: Option<Key>)
  type Entries = seq<Entry>

  /** A backup's metadata, and the key that is sealed under. */
  datatype Stored = Stored(entries: Entries, sealedUnder: Option<Key>)

  predicate Opens(provider: Provider, key: Option<Key>) {
    key.Some? ==> provider.Provider? && key.value in provider.held
  }

  /** The check an attempt makes next: that the metadata can be read, that the
      current key is there, that a table's footer verifies. */
  datatype Check = Metadata | CurrentKey | Footer(k: nat)

  datatype Attempt =
    | Resting
    | Checking(backup: Stored, provider: Provider, next: Check)
    | MakingFolders(m: Entries)
    | SyncingFolders(m: Entries)
    | Copying(m: Entries, k: nat)
    | Filling(m: Entries, k: nat, content: Bytes, written: nat)
    | Filled(m: Entries, k: nat, content: Bytes)
    | Placed(m: Entries, k: nat)
    | ManifestFilling(m: Entries)
    | ManifestFilled(m: Entries)
    | ManifestPlaced(m: Entries)

  datatype Outcome = Unfinished | Refused | Failed | Restored(m: Entries)

  datatype Target = Target(
    root: Dir<RootName, Entries>,
    sst: Dir<SstName, Bytes>,
    at: Attempt,
    outcome: Outcome
  )

  datatype Move =
    | Begin(backup: Stored, provider: Provider)
    | Inspect(readable: bool)
    | MakeFolders
    | SyncFolders
    | Verify(found: Option<Bytes>)
    | Fill(upTo: nat)
    | SyncTable
    | PlaceTable
    | SyncSst
    | FillManifest(written: Entries)
    | SyncManifest
    | PlaceManifest
    | SyncRoot
    | GiveUp
    | Crash(root: Dir<RootName, Entries>, sst: Dir<SstName, Bytes>)

  /** No two tables of a backup go to the same file. */
  predicate DistinctFiles(m: Entries) {
    forall i, j | 0 <= i < j < |m| :: m[i].fileId != m[j].fileId
  }

  /** `verify_shared_file` on the stored object found for an entry. */
  predicate Intact(found: Option<Bytes>, e: Entry) {
    found.Some? && |found.value| == e.size && ContentIdOf(found.value) == e.id
  }

  ghost predicate Allowed(s: Target, move: Move) {
    match move
    case Begin(backup, _) => s.at.Resting? && DistinctFiles(backup.entries)
    case Inspect(_) => s.at.Checking?
    case MakeFolders => s.at.MakingFolders?
    case SyncFolders => s.at.SyncingFolders?
    case Verify(_) => s.at.Copying? && s.at.k < |s.at.m|
    case Fill(upTo) => s.at.Filling? && s.at.k < |s.at.m| && s.at.written < upTo <= |s.at.content|
    case SyncTable => s.at.Filling? && s.at.k < |s.at.m| && s.at.written == |s.at.content|
    case PlaceTable => s.at.Filled? && s.at.k < |s.at.m| && SstStaging(s.at.m[s.at.k].fileId) in s.sst.live
    case SyncSst => s.at.Placed?
    case FillManifest(_) => s.at.Copying? && s.at.k == |s.at.m|
    case SyncManifest => s.at.ManifestFilling?
    case PlaceManifest => s.at.ManifestFilled? && ManifestStaging in s.root.live
    case SyncRoot => s.at.ManifestPlaced?
    case GiveUp => !s.at.Resting?
    case Crash(root, sst) =>
      && Crashed(s.root, root)
      && if SstFolder in root.live then Crashed(s.sst, sst) else sst == Dir(map[], map[])
  }

  ghost function WithFolder(root: Dir<RootName, Entries>, n: RootName): Dir<RootName, Entries> {
    if n in root.live then root else Put(root, n, Folder)
  }

  /** Whether the check passes, given whether what it looks at could be read. */
  predicate Passes(backup: Stored, provider: Provider, next: Check, readable: bool) {
    match next
    case Metadata => readable && Opens(provider, backup.sealedUnder)
    case CurrentKey => provider.Provider? && provider.current in provider.held
    case Footer(k) =>
      k >= |backup.entries| || backup.entries[k].sealedUnder.None?
      || (readable && Opens(provider, backup.entries[k].sealedUnder))
  }

  /** What follows a check that passed. Without keys only the metadata is
      checked. */
  function Passed(backup: Stored, provider: Provider, next: Check): Attempt {
    match next
    case Metadata =>
      if provider.Provider? then Checking(backup, provider, CurrentKey) else MakingFolders(backup.entries)
    case CurrentKey => Checking(backup, provider, Footer(0))
    case Footer(k) =>
      if k < |backup.entries| then Checking(backup, provider, Footer(k + 1)) else MakingFolders(backup.entries)
  }

  ghost function Inspected(s: Target, readable: bool): Target
    requires s.at.Checking?
  {
    var Checking(backup, provider, next) := s.at;
    if Passes(backup, provider, next, readable) then s.(at := Passed(backup, provider, next))
    else s.(at := Resting, outcome := Refused)
  }

  ghost function Next(s: Target, move: Move): Target
    requires Allowed(s, move)
  {
    match move
    case Begin(backup, provider) =>
      if Manifest in s.root.live then s.(outcome := Refused)
      else s.(at := Checking(backup, provider, Metadata), outcome := Unfinished)
    case Inspect(readable) => Inspected(s, readable)
    case MakeFolders =>
      s.(root := WithFolder(WithFolder(s.root, SstFolder), WalFolder), at := SyncingFolders(s.at.m))
    case SyncFolders => s.(root := SyncDir(s.root), sst := SyncDir(s.sst), at := Copying(s.at.m, 0))
    case Verify(found) =>
      var Copying(m, k) := s.at;
      if Intact(found, m[k])
      then s.(sst := Put(s.sst, SstStaging(m[k].fileId), File([], false)), at := Filling(m, k, found.value, 0))
      else s.(at := Resting, outcome := Failed)
    case Fill(upTo) =>
      var Filling(m, k, content, _) := s.at;
      s.(sst := Put(s.sst, SstStaging(m[k].fileId), File(content[..upTo], false)), at := s.at.(written := upTo))
    case SyncTable =>
      var Filling(m, k, content, _) := s.at;
      s.(sst := Put(s.sst, SstStaging(m[k].fileId), File(content, true)), at := Filled(m, k, content))
    case PlaceTable =>
      var Filled(m, k, _) := s.at;
      s.(sst := Rename(s.sst, SstStaging(m[k].fileId), Sst(m[k].fileId)), at := Placed(m, k))
    case SyncSst => s.(sst := SyncDir(s.sst), at := Copying(s.at.m, s.at.k + 1))
    case FillManifest(written) =>
      s.(root := Put(s.root, ManifestStaging, File(written, false)), at := ManifestFilling(s.at.m))
    case SyncManifest =>
      s.(root := Put(s.root, ManifestStaging, File(s.at.m, true)), at := ManifestFilled(s.at.m))
    case PlaceManifest => s.(root := Rename(s.root, ManifestStaging, Manifest), at := ManifestPlaced(s.at.m))
    case SyncRoot => s.(root := SyncDir(s.root), at := Resting, outcome := Restored(s.at.m))
    case GiveUp => s.(at := Resting, outcome := Failed)
    case Crash(root, sst) => Target(root, sst, Resting, Failed)
  }

  /** No file stands where the folder of tables goes. */
  ghost predicate FolderFree(root: Dir<RootName, Entries>) {
    forall node | node in Possible(root, SstFolder) && node.Some? :: node.value.Folder?
  }

  /** A target with anything in it but a MANIFEST. */
  ghost predicate Start(s: Target) {
    s.at.Resting? && s.outcome.Unfinished? && Possible(s.root, Manifest) == {None} && FolderFree(s.root)
  }

  ghost predicate Attempts(states: seq<Target>, moves: seq<Move>) {
    && |states| == |moves| + 1 && Start(states[0])
    && forall i | 0 <= i < |moves| :: Allowed(states[i], moves[i]) && states[i + 1] == Next(states[i], moves[i])
  }

  // ----------------------------------------------------------- invariant

  ghost predicate FolderStays(root: Dir<RootName, Entries>) {
    forall node | node in Possible(root, SstFolder) :: node == Some(Folder)
  }

  ghost predicate Placings(sst: Dir<SstName, Bytes>, m: Entries, k: nat) {
    forall j | 0 <= j < k && j < |m| :: Certain(sst, Sst(m[j].fileId), m[j].id)
  }

  /** Every table of the listing is in the target for good, with its bytes. */
  ghost predicate Complete(s: Target, m: Entries) {
    FolderStays(s.root) && Placings(s.sst, m, |m|)
  }

  ghost predicate Manifests(s: Target) {
    && (Manifest !in s.root.live ==> Possible(s.root, Manifest) == {None})
    && forall node | node in Possible(s.root, Manifest) && node.Some? ::
         node.value.File? && node.value.synced && Complete(s, node.value.content)
  }

  predicate InCopy(at: Attempt) {
    at.Copying? || at.Filling? || at.Filled? || at.Placed?
  }

  predicate InManifest(at: Attempt) {
    at.ManifestFilling? || at.ManifestFilled? || at.ManifestPlaced?
  }

  ghost predicate Progress(s: Target) {
    && (InCopy(s.at) ==>
          && DistinctFiles(s.at.m) && s.at.k <= |s.at.m| && (!s.at.Copying? ==> s.at.k < |s.at.m|)
          && FolderStays(s.root) && Placings(s.sst, s.at.m, s.at.k))
    && (s.at.Filling? ==> s.at.content == s.at.m[s.at.k].id)
    && (s.at.Filled? ==> Get(s.sst, SstStaging(s.at.m[s.at.k].fileId)) == Some(File(s.at.m[s.at.k].id, true)))
    && (s.at.Placed? ==> Get(s.sst, Sst(s.at.m[s.at.k].fileId)) == Some(File(s.at.m[s.at.k].id, true)))
    && (InManifest(s.at) ==> Complete(s, s.at.m))
    && (s.at.ManifestFilled? ==> Get(s.root, ManifestStaging) == Some(File(s.at.m, true)))
    && (s.at.ManifestPlaced? ==>
          Get(s.root, Manifest) == Some(File(s.at.m, true)) && None in Possible(s.root, Manifest))
    && (s.at.Checking? ==> DistinctFiles(s.at.backup.entries))
    && (s.at.MakingFolders? || s.at.SyncingFolders? ==> DistinctFiles(s.at.m))
    && (s.at.SyncingFolders? ==> Get(s.root, SstFolder) == Some(Folder))
    && (!s.at.Resting? && !s.at.ManifestPlaced? ==> Manifest !in s.root.live)
  }

  ghost predicate Inv(s: Target) {
    Manifests(s) && Progress(s) && FolderFree(s.root)
  }

  /** Copying a table touches two names, neither of them a placed table's. */
  lemma PlacingsStay(a: Dir<SstName, Bytes>, b: Dir<SstName, Bytes>, m: Entries, k: nat)
    requires DistinctFiles(m) && k < |m| && Placings(a, m, k)
    requires forall f | f != m[k].fileId :: Possible(b, Sst(f)) == Possible(a, Sst(f))
    ensures Placings(b, m, k)
  {
    forall j | 0 <= j < k ensures Certain(b, Sst(m[j].fileId), m[j].id) {
      assert Certain(a, Sst(m[j].fileId), m[j].id);
      assert m[j].fileId != m[k].fileId;
    }
  }

  lemma TableMoveKeepsInv(s: Target, move: Move)
    requires Inv(s) && Allowed(s, move)
    requires move.Verify? || move.Fill? || move.SyncTable? || move.PlaceTable?
    ensures Inv(Next(s, move))
  {
    PlacingsStay(s.sst, Next(s, move).sst, s.at.m, s.at.k);
  }

  lemma SyncSstKeepsInv(s: Target)
    requires Inv(s) && s.at.Placed?
    ensures Inv(Next(s, SyncSst))
  {
    var m, k := s.at.m, s.at.k;
    forall j | 0 <= j < k + 1 ensures Certain(SyncDir(s.sst), Sst(m[j].fileId), m[j].id) {
      if j < k {
        SyncKeepsCertain(s.sst, Sst(m[j].fileId), m[j].id);
      }
    }
  }

  lemma SyncKeepsCertain<N, C>(d: Dir<N, C>, n: N, content: C)
    requires Certain(d, n, content)
    ensures Certain(SyncDir(d), n, content)
  {
    assert Get(d, n) in Possible(d, n);
  }

  lemma RootMoveKeepsInv(s: Target, move: Move)
    requires Inv(s) && Allowed(s, move)
    requires move.MakeFolders? || move.FillManifest? || move.SyncManifest? || move.PlaceManifest? || move.SyncRoot?
    ensures Inv(Next(s, move))
  {
    var t := Next(s, move);
    assert t.sst == s.sst;
    if !move.MakeFolders? {
      FolderSettles(s.root, t.root);
    }
  }

  lemma FolderSettles(a: Dir<RootName, Entries>, b: Dir<RootName, Entries>)
    requires FolderStays(a) && Possible(b, SstFolder) <= Possible(a, SstFolder)
    ensures FolderStays(b)
  {
  }

  lemma SyncFoldersKeepsInv(s: Target)
    requires Inv(s) && s.at.SyncingFolders?
    ensures Inv(Next(s, SyncFolders))
  {
  }

  lemma CrashKeepsInv(s: Target, move: Move)
    requires Inv(s) && Allowed(s, move) && move.Crash?
    ensures Inv(Next(s, move))
  {
    var t := Next(s, move);
    assert ComesBack(s.root, SstFolder, Get(t.root, SstFolder));
    assert ComesBack(s.root, Manifest, Get(t.root, Manifest));
    if Manifest in t.root.live {
      var node :| node in Possible(s.root, Manifest) && Survives(node, Get(t.root, Manifest));
      CrashKeepsComplete(s, move, node.value.content);
    }
  }

  lemma CrashKeepsComplete(s: Target, move: Move, m: Entries)
    requires Allowed(s, move) && move.Crash? && Complete(s, m)
    ensures Complete(Next(s, move), m)
  {
    var t := Next(s, move);
    assert ComesBack(s.root, SstFolder, Get(t.root, SstFolder));
    forall j | 0 <= j < |m| ensures Certain(t.sst, Sst(m[j].fileId), m[j].id) {
      assert Certain(s.sst, Sst(m[j].fileId), m[j].id);
      CertainSurvives(s.sst, t.sst, Sst(m[j].fileId), m[j].id);
    }
  }

  lemma CheckKeepsInv(s: Target, move: Move)
    requires Inv(s) && Allowed(s, move) && (move.Begin? || move.Inspect? || move.GiveUp?)
    ensures Inv(Next(s, move))
  {
  }

  lemma MoveKeepsInv(s: Target, move: Move)
    requires Inv(s) && Allowed(s, move)
    ensures Inv(Next(s, move))
  {
    match move
    case Begin(_, _) => CheckKeepsInv(s, move);
    case Inspect(_) => CheckKeepsInv(s, move);
    case GiveUp => CheckKeepsInv(s, move);
    case Verify(_) => TableMoveKeepsInv(s, move);
    case Fill(_) => TableMoveKeepsInv(s, move);
    case SyncTable => TableMoveKeepsInv(s, move);
    case PlaceTable => TableMoveKeepsInv(s, move);
    case SyncSst => SyncSstKeepsInv(s);
    case SyncFolders => SyncFoldersKeepsInv(s);
    case Crash(_, _) => CrashKeepsInv(s, move);
    case _ => RootMoveKeepsInv(s, move);
  }

  lemma {:induction false} AttemptsKeepInv(states: seq<Target>, moves: seq<Move>, i: nat)
    requires Attempts(states, moves) && i < |states|
    ensures Inv(states[i])
  {
    if i > 0 {
      AttemptsKeepInv(states, moves, i - 1);
      MoveKeepsInv(states[i - 1], moves[i - 1]);
    }
  }

  // ------------------------------------------------------------- results

  /** The MANIFEST comes last: at every point of every sequence of attempts, a
      MANIFEST the target shows, or could come back with after a power cut,
      names only tables that are in the target for good with the bytes the
      backup has for them. */
  lemma AnyManifestIsComplete(states: seq<Target>, moves: seq<Move>, i: nat, node: Option<Node<Entries>>)
    requires Attempts(states, moves) && i < |states|
    requires node in Possible(states[i].root, Manifest) && node.Some?
    ensures node.value.File? && Complete(states[i], node.value.content)
    ensures forall e | e in node.value.content :: Get(states[i].sst, Sst(e.fileId)) == Some(File(e.id, true))
  {
    AttemptsKeepInv(states, moves, i);
    forall e | e in node.value.content ensures Get(states[i].sst, Sst(e.fileId)) == Some(File(e.id, true)) {
      var j :| 0 <= j < |node.value.content| && node.value.content[j] == e;
      CertainNow(states[i].sst, Sst(e.fileId), e.id);
    }
  }

  /** A restore that returned Ok has put the database there for good: every
      later attempt and every power cut leaves that MANIFEST and its tables. */
  lemma {:induction false} RestoredStays(states: seq<Target>, moves: seq<Move>, i: nat, j: nat)
    requires Attempts(states, moves) && i <= j < |states| && states[i].outcome.Restored?
    ensures Settled(states[j], states[i].outcome.m)
  {
    if i == j {
      RestoredIsDurable(states, moves, i);
    } else {
      RestoredStays(states, moves, i, j - 1);
      MoveKeepsSettled(states[j - 1], moves[j - 1], states[i].outcome.m);
    }
  }

  ghost predicate Settled(s: Target, m: Entries) {
    s.at.Resting? && Certain(s.root, Manifest, m) && Complete(s, m)
  }

  lemma MoveKeepsSettled(s: Target, move: Move, m: Entries)
    requires Settled(s, m) && Allowed(s, move)
    ensures Settled(Next(s, move), m)
  {
    CertainNow(s.root, Manifest, m);
    if move.Crash? {
      CertainSurvives(s.root, move.root, Manifest, m);
      CrashKeepsComplete(s, move, m);
    }
  }

  lemma {:induction false} RestoredIsDurable(states: seq<Target>, moves: seq<Move>, i: nat)
    requires Attempts(states, moves) && i < |states| && states[i].outcome.Restored?
    ensures Settled(states[i], states[i].outcome.m)
  {
    if i > 0 {
      if moves[i - 1].SyncRoot? {
        AttemptsKeepInv(states, moves, i - 1);
        AttemptsKeepInv(states, moves, i);
      } else {
        RestoredIsDurable(states, moves, i - 1);
      }
    }
  }

  // ------------------------------------------------------------ refusals

  /** What the attempt that begins at `i` has done to the disk by `j`: nothing,
      or what a power cut makes of the disk it found. */
  ghost predicate AsItBegan(was: Target, move: Move, now: Target) {
    if move.Crash? then Crashed(was.root, now.root) && (SstFolder in now.root.live ==> Crashed(was.sst, now.sst))
    else now.root == was.root && now.sst == was.sst
  }

  /** Up to its last check an attempt leaves the target alone, however it ends:
      refused, failed, cut by a power cut, or going on to write. */
  lemma {:induction false} ChecksTouchNothing(states: seq<Target>, moves: seq<Move>, i: nat, j: nat)
    requires Attempts(states, moves) && i < j < |states| && moves[i].Begin?
    requires forall k | i < k < j :: states[k].at.Checking?
    ensures AsItBegan(states[i], moves[j - 1], states[j])
  {
    if i + 1 < j {
      ChecksTouchNothing(states, moves, i, j - 1);
      CheckingTouchesNothing(states[j - 1], moves[j - 1]);
      CheckingGoesOn(states[j - 2], moves[j - 2]);
    }
  }

  lemma CheckingTouchesNothing(s: Target, move: Move)
    requires Allowed(s, move) && s.at.Checking?
    ensures AsItBegan(s, move, Next(s, move))
  {
  }

  lemma CheckingGoesOn(s: Target, move: Move)
    requires Allowed(s, move) && Next(s, move).at.Checking?
    ensures !move.Crash? && (move.Begin? || s.at.Checking?)
  {
  }

  /** The attempt a check belongs to. */
  lemma {:induction false} AttemptOf(states: seq<Target>, moves: seq<Move>, j: nat) returns (i: nat)
    requires Attempts(states, moves) && j < |states| && states[j].at.Checking?
    ensures i < j && moves[i].Begin? && forall k | i < k <= j :: states[k].at.Checking?
  {
    CheckingGoesOn(states[j - 1], moves[j - 1]);
    if moves[j - 1].Begin? {
      i := j - 1;
    } else {
      i := AttemptOf(states, moves, j - 1);
    }
  }

  lemma RefusalComesFrom(s: Target, move: Move)
    requires Allowed(s, move) && Next(s, move).outcome.Refused?
    requires s.outcome.Refused? ==> s.at.Resting?
    ensures move.Begin? || s.at.Checking?
    ensures !move.Crash? && Next(s, move).at.Resting?
  {
  }

  lemma {:induction false} RefusedRests(states: seq<Target>, moves: seq<Move>, j: nat)
    requires Attempts(states, moves) && j < |states| && states[j].outcome.Refused?
    ensures j > 0 && states[j].at.Resting? && !moves[j - 1].Crash?
    ensures moves[j - 1].Begin? || states[j - 1].at.Checking?
  {
    if states[j - 1].outcome.Refused? {
      RefusedRests(states, moves, j - 1);
    }
    RefusalComesFrom(states[j - 1], moves[j - 1]);
  }

  /** A refused attempt, whichever check refused it, leaves the target exactly
      as it found it. */
  lemma RefusedLeavesTheTarget(states: seq<Target>, moves: seq<Move>, j: nat) returns (i: nat)
    requires Attempts(states, moves) && j < |states| && states[j].outcome.Refused?
    ensures i < j && moves[i].Begin? && forall k | i < k < j :: states[k].at.Checking?
    ensures states[j].root == states[i].root && states[j].sst == states[i].sst
  {
    RefusedRests(states, moves, j);
    if moves[j - 1].Begin? {
      i := j - 1;
    } else {
      i := AttemptOf(states, moves, j - 1);
    }
    ChecksTouchNothing(states, moves, i, j);
  }

  /** What an attempt needs to begin writing: an empty target, metadata its
      keys open and, with keys given, the current one and every sealed table's
      among them. */
  ghost predicate KeysHeld(backup: Stored, provider: Provider, n: nat) {
    && Opens(provider, backup.sealedUnder)
    && (provider.Provider? ==>
          && provider.current in provider.held
          && forall k | 0 <= k < n && k < |backup.entries| :: Opens(provider, backup.entries[k].sealedUnder))
  }

  ghost predicate CheckedSoFar(s: Target, backup: Stored, provider: Provider) {
    && Manifest !in s.root.live
    && match s.at
       case Checking(b, p, Metadata) => b == backup && p == provider
       case Checking(b, p, CurrentKey) => b == backup && p == provider && Opens(p, b.sealedUnder)
       case Checking(b, p, Footer(k)) =>
         b == backup && p == provider && p.Provider? && k <= |b.entries| && KeysHeld(b, p, k)
       case MakingFolders(m) => m == backup.entries && KeysHeld(backup, provider, |m|)
       case _ => true
  }

  lemma CheckStep(s: Target, move: Move, backup: Stored, provider: Provider)
    requires Allowed(s, move) && CheckedSoFar(s, backup, provider) && s.at.Checking? && !move.Crash?
    ensures CheckedSoFar(Next(s, move), backup, provider)
  {
  }

  lemma {:induction false} ChecksAdd(states: seq<Target>, moves: seq<Move>, i: nat, j: nat)
    requires Attempts(states, moves) && i < j < |states| && moves[i].Begin? && !states[i + 1].outcome.Refused?
    requires (forall k | i < k < j :: states[k].at.Checking?) && !moves[j - 1].Crash?
    ensures CheckedSoFar(states[j], moves[i].backup, moves[i].provider)
  {
    if i + 1 < j {
      CheckingGoesOn(states[j - 2], moves[j - 2]);
      ChecksAdd(states, moves, i, j - 1);
      CheckStep(states[j - 1], moves[j - 1], moves[i].backup, moves[i].provider);
    }
  }

  /** Nothing is written without the keys: when an attempt is about to make its
      first change, the target showed no MANIFEST, the metadata opened, and with
      keys given so did the current key and every table's. */
  lemma WritesBeginOnlyWithTheKeys(states: seq<Target>, moves: seq<Move>, j: nat) returns (i: nat)
    requires Attempts(states, moves) && j < |states| && states[j].at.MakingFolders?
    ensures i < j && moves[i].Begin? && states[j].at.m == moves[i].backup.entries
    ensures Manifest !in states[i].root.live && KeysHeld(moves[i].backup, moves[i].provider, |states[j].at.m|)
    ensures states[j].root == states[i].root && states[j].sst == states[i].sst
  {
    FoldersFollowChecks(states[j - 1], moves[j - 1]);
    i := AttemptOf(states, moves, j - 1);
    ChecksTouchNothing(states, moves, i, j);
    assert states[i + 1].at.Checking?;
    BegunUnrefused(states[i], moves[i]);
    ChecksAdd(states, moves, i, j);
  }

  lemma FoldersFollowChecks(s: Target, move: Move)
    requires Allowed(s, move) && Next(s, move).at.MakingFolders?
    ensures s.at.Checking? && !move.Crash?
  {
  }

  lemma BegunUnrefused(s: Target, move: Move)
    requires Allowed(s, move) && move.Begin? && Next(s, move).at.Checking?
    ensures !Next(s, move).outcome.Refused? && Manifest !in s.root.live
  {
  }

  /** A target that shows a MANIFEST is a database, and attempts on it, any
      number of them, change nothing. */
  lemma {:induction false} ADatabaseIsLeftAlone(states: seq<Target>, moves: seq<Move>, i: nat, j: nat)
    requires Attempts(states, moves) && i <= j < |states| && (forall k | i <= k < j :: !moves[k].Crash?)
    requires states[i].at.Resting? && Manifest in states[i].root.live
    ensures states[j].root == states[i].root && states[j].sst == states[i].sst && states[j].at.Resting?
  {
    if i < j {
      ADatabaseIsLeftAlone(states, moves, i, j - 1);
      Refuses(states[j - 1], moves[j - 1]);
    }
  }

  lemma Refuses(s: Target, move: Move)
    requires Allowed(s, move) && s.at.Resting? && Manifest in s.root.live && !move.Crash?
    ensures Next(s, move) == s.(outcome := Refused)
  {
  }

  // -------------------------------------------------- a damaged object

  /** A table is copied exactly when the object stored for it has the entry's
      bytes and size; one missing, damaged or of another size ends the attempt
      with the target as it was. */
  lemma OnlyIntactObjectsAreCopied(states: seq<Target>, moves: seq<Move>, j: nat)
    requires Attempts(states, moves) && j < |moves| && moves[j].Verify?
    ensures var e := states[j].at.m[states[j].at.k];
      && (states[j + 1].at.Filling? <==> moves[j].found == Some(e.id) && |e.id| == e.size)
      && (states[j + 1].at.Filling? ==> states[j + 1].at.content == e.id)
      && (!states[j + 1].at.Filling? ==>
            states[j + 1] == states[j].(at := Resting, outcome := Failed))
  {
  }

  // ---------------------------------------- a failure after the last rename

  /** When an attempt that did not return Ok, for an error or a power cut, left
      a database all the same. After an error: exactly when it had renamed the
      MANIFEST and not yet synced it. After a power cut: only then, and then
      either way, as `ACutAfterTheRenameGoesEitherWay` says. */
  lemma FailedLeavesADatabaseExactlyWhen(states: seq<Target>, moves: seq<Move>, i: nat)
    requires Attempts(states, moves) && i < |moves|
    requires !states[i].at.Resting? && states[i + 1].outcome.Failed? && states[i + 1].at.Resting?
    ensures !moves[i].Crash? ==> (Manifest in states[i + 1].root.live <==> states[i].at.ManifestPlaced?)
    ensures moves[i].Crash? && Manifest in states[i + 1].root.live ==> states[i].at.ManifestPlaced?
  {
    AttemptsKeepInv(states, moves, i);
    if moves[i].Crash? {
      assert ComesBack(states[i].root, Manifest, Get(states[i + 1].root, Manifest));
    }
  }

  lemma ACutAfterTheRenameGoesEitherWay(states: seq<Target>, moves: seq<Move>, i: nat)
    returns (kept: Move, lost: Move)
    requires Attempts(states, moves) && i < |states| && states[i].at.ManifestPlaced?
    ensures kept.Crash? && Allowed(states[i], kept) && Manifest in Next(states[i], kept).root.live
    ensures lost.Crash? && Allowed(states[i], lost) && Manifest !in Next(states[i], lost).root.live
  {
    var s := states[i];
    AttemptsKeepInv(states, moves, i);
    assert Get(s.root, SstFolder) in Possible(s.root, SstFolder);
    var root := Rebooted(s.root);
    var sst := Rebooted(s.sst);
    var without := RebootedWithout(s.root, Manifest);
    kept, lost := Crash(root, sst), Crash(without, sst);
  }

  lemma Extended(states: seq<Target>, moves: seq<Move>, move: Move) returns (more: seq<Target>, most: seq<Move>)
    requires Attempts(states, moves) && Allowed(states[|moves|], move)
    ensures Attempts(more, most) && most == moves + [move]
    ensures |more| == |states| + 1 && states <= more && more[|moves|] == states[|moves|]
    ensures more[|most|] == Next(states[|moves|], move)
  {
    more, most := states + [Next(states[|moves|], move)], moves + [move];
  }

  // ------------------------------------------------ a restore can complete

  lemma FileFilled(states: seq<Target>, moves: seq<Move>) returns (more: seq<Target>, most: seq<Move>)
    requires Attempts(states, moves) && states[|moves|].at.Copying? && states[|moves|].at.k < |states[|moves|].at.m|
    requires var e := states[|moves|].at.m[states[|moves|].at.k]; |e.id| == e.size
    ensures Attempts(more, most) && states <= more && moves <= most
    ensures var Copying(m, k) := states[|moves|].at;
      more[|most|].at == Filled(m, k, m[k].id) && SstStaging(m[k].fileId) in more[|most|].sst.live
  {
    var e := states[|moves|].at.m[states[|moves|].at.k];
    more, most := Extended(states, moves, Move.Verify(Some(e.id)));
    if e.id != [] {
      more, most := Extended(more, most, Fill(|e.id|));
    }
    more, most := Extended(more, most, SyncTable);
  }

  lemma FileCopied(states: seq<Target>, moves: seq<Move>) returns (more: seq<Target>, most: seq<Move>)
    requires Attempts(states, moves) && states[|moves|].at.Copying? && states[|moves|].at.k < |states[|moves|].at.m|
    requires var e := states[|moves|].at.m[states[|moves|].at.k]; |e.id| == e.size
    ensures Attempts(more, most) && states <= more && moves <= most
    ensures more[|most|].at == Copying(states[|moves|].at.m, states[|moves|].at.k + 1)
  {
    more, most := FileFilled(states, moves);
    more, most := Extended(more, most, PlaceTable);
    more, most := Extended(more, most, SyncSst);
  }

  lemma {:induction false} AllCopied(states: seq<Target>, moves: seq<Move>) returns (more: seq<Target>, most: seq<Move>)
    requires Attempts(states, moves) && states[|moves|].at.Copying? && states[|moves|].at.k <= |states[|moves|].at.m|
    requires forall e | e in states[|moves|].at.m :: |e.id| == e.size
    ensures Attempts(more, most) && states <= more && moves <= most
    ensures more[|most|].at == Copying(states[|moves|].at.m, |states[|moves|].at.m|)
    decreases |states[|moves|].at.m| - states[|moves|].at.k
  {
    more, most := states, moves;
    if states[|moves|].at.k < |states[|moves|].at.m| {
      more, most := FileCopied(states, moves);
      more, most := AllCopied(more, most);
    }
  }

  lemma ManifestWritten(states: seq<Target>, moves: seq<Move>) returns (more: seq<Target>, most: seq<Move>)
    requires Attempts(states, moves) && states[|moves|].at.Copying? && states[|moves|].at.k == |states[|moves|].at.m|
    ensures Attempts(more, most) && states <= more && moves <= most
    ensures more[|most|].outcome == Restored(states[|moves|].at.m)
  {
    more, most := Extended(states, moves, FillManifest([]));
    more, most := Extended(more, most, SyncManifest);
    more, most := Extended(more, most, PlaceManifest);
    more, most := Extended(more, most, SyncRoot);
  }

  /** A restore is never stuck: from any target at rest that shows no MANIFEST,
      whatever earlier attempts left there, with the keys it needs and every
      object intact, an attempt can run to its end. */
  lemma RestoreCanComplete(states: seq<Target>, moves: seq<Move>, backup: Stored, provider: Provider)
    returns (more: seq<Target>, most: seq<Move>)
    requires Attempts(states, moves) && states[|moves|].at.Resting? && Manifest !in states[|moves|].root.live
    requires DistinctFiles(backup.entries) && forall e | e in backup.entries :: |e.id| == e.size
    requires KeysHeld(backup, provider, |backup.entries|)
    ensures Attempts(more, most) && states <= more && moves <= most
    ensures more[|most|].outcome == Restored(backup.entries)
  {
    more, most := Extended(states, moves, Begin(backup, provider));
    more, most := ChecksPassed(more, most, backup, provider);
    more, most := Extended(more, most, MakeFolders);
    more, most := Extended(more, most, SyncFolders);
    more, most := AllCopied(more, most);
    more, most := ManifestWritten(more, most);
  }

  lemma {:induction false} ChecksPassed(states: seq<Target>, moves: seq<Move>, backup: Stored, provider: Provider)
    returns (more: seq<Target>, most: seq<Move>)
    requires Attempts(states, moves) && states[|moves|].at.Checking?
    requires states[|moves|].at.backup == backup && states[|moves|].at.provider == provider
    requires KeysHeld(backup, provider, |backup.entries|)
    requires !states[|moves|].at.next.Metadata? ==> provider.Provider?
    requires states[|moves|].at.next.Footer? ==> states[|moves|].at.next.k <= |backup.entries|
    ensures Attempts(more, most) && states <= more && moves <= most
    ensures more[|most|].at == MakingFolders(backup.entries)
    decreases ChecksLeft(backup, states[|moves|].at.next)
  {
    more, most := Extended(states, moves, Inspect(true));
    if more[|most|].at.Checking? {
      more, most := ChecksPassed(more, most, backup, provider);
    }
  }

  function ChecksLeft(backup: Stored, next: Check): nat {
    match next
    case Metadata => |backup.entries| + 3
    case CurrentKey => |backup.entries| + 2
    case Footer(k) => if k <= |backup.entries| then |backup.entries| - k + 1 else 0
  }

  /** Such an attempt, at a backup of no tables into a fresh directory. */
  lemma AFailedAttemptCanLeaveADatabase() returns (states: seq<Target>, moves: seq<Move>)
    ensures Attempts(states, moves) && |moves| > 0 && moves[|moves| - 1] == GiveUp
    ensures states[|moves| - 1].at.ManifestPlaced?
    ensures states[|moves|].outcome.Failed? && Manifest in states[|moves|].root.live
  {
    states, moves := CopiedNothing();
    states, moves := Extended(states, moves, FillManifest([]));
    states, moves := Extended(states, moves, SyncManifest);
    states, moves := Extended(states, moves, PlaceManifest);
    states, moves := Extended(states, moves, GiveUp);
  }

  lemma CopiedNothing() returns (states: seq<Target>, moves: seq<Move>)
    ensures Attempts(states, moves) && states[|moves|].at == Copying([], 0)
  {
    states, moves := [Target(Dir(map[], map[]), Dir(map[], map[]), Resting, Unfinished)], [];
    states, moves := Extended(states, moves, Begin(Stored([], None), NoProvider));
    states, moves := Extended(states, moves, Inspect(true));
    states, moves := Extended(states, moves, MakeFolders);
    states, moves := Extended(states, moves, SyncFolders);
  }
}
