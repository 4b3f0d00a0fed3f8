/** Attempts at restoring one backup into one fresh directory, cut short and
    run again any number of times: the one that succeeds leaves what a single
    undisturbed attempt would. */
module BackupRestoreReruns {
  import opened Words
  import opened Durable
  import opened BackupRestore

  ghost predicate Named(m: Entries, n: SstName) {
    exists j :: 0 <= j < |m| && m[j].fileId == n.fileId
  }

  function EntriesOf(at: Attempt): Entries
    requires !at.Resting?
  {
    if at.Checking? then at.backup.entries else at.m
  }

  ghost predicate OneBackup(states: seq<Target>, moves: seq<Move>, m: Entries) {
    && Attempts(states, moves)
    && states[0].root == Dir(map[], map[]) && states[0].sst == Dir(map[], map[])
    && forall i | 0 <= i < |moves| && moves[i].Begin? :: moves[i].backup.entries == m
  }

  // ----------------------------------------------------------- invariant

  /** Nothing but the backup's own names is, or can come back, in `sst/`. */
  ghost predicate OnlyNamed(s: Target, m: Entries) {
    forall n: SstName | !Named(m, n) :: Possible(s.sst, n) == {None}
  }

  /** The attempt has renamed away the staging files of the tables behind it. */
  ghost predicate StagingGone(s: Target) {
    && (InCopy(s.at) ==> forall j | 0 <= j < s.at.k && j < |s.at.m| :: SstStaging(s.at.m[j].fileId) !in s.sst.live)
    && (s.at.Placed? && s.at.k < |s.at.m| ==> SstStaging(s.at.m[s.at.k].fileId) !in s.sst.live)
    && (InManifest(s.at) ==> forall j | 0 <= j < |s.at.m| :: SstStaging(s.at.m[j].fileId) !in s.sst.live)
  }

  ghost predicate RootInOrder(s: Target) {
    && (forall node | node in Possible(s.root, WalFolder) && node.Some? :: node.value.Folder?)
    && (s.at.SyncingFolders? || InCopy(s.at) || InManifest(s.at) ==> SstFolder in s.root.live && WalFolder in s.root.live)
    && (s.at.ManifestPlaced? ==> ManifestStaging !in s.root.live)
  }

  ghost predicate Orderly(s: Target, m: Entries) {
    Inv(s) && (!s.at.Resting? ==> EntriesOf(s.at) == m) && OnlyNamed(s, m) && StagingGone(s) && RootInOrder(s)
  }

  lemma MoveKeepsNames(s: Target, move: Move, m: Entries)
    requires Orderly(s, m) && Allowed(s, move)
    ensures OnlyNamed(Next(s, move), m)
  {
    forall n: SstName | !Named(m, n) ensures Possible(Next(s, move).sst, n) == {None} {
      assert Possible(s.sst, n) == {None};
      if move.Crash? {
        assert SstFolder in move.root.live ==> ComesBack(s.sst, n, Get(move.sst, n));
      } else if move.Verify? || move.Fill? || move.SyncTable? || move.PlaceTable? {
        assert n.fileId != m[s.at.k].fileId;
      }
    }
  }

  /** The move works on a table, in `sst/`. */
  predicate OnTables(move: Move) {
    move.Verify? || move.Fill? || move.SyncTable? || move.PlaceTable? || move.SyncSst?
  }

  lemma TableMoveKeepsStagingGone(s: Target, move: Move, m: Entries)
    requires Orderly(s, m) && Allowed(s, move) && OnTables(move)
    ensures StagingGone(Next(s, move))
  {
  }

  lemma OtherMoveKeepsStagingGone(s: Target, move: Move, m: Entries)
    requires Orderly(s, m) && Allowed(s, move) && !OnTables(move)
    ensures StagingGone(Next(s, move))
  {
  }

  lemma TableMoveKeepsRoot(s: Target, move: Move, m: Entries)
    requires Orderly(s, m) && Allowed(s, move) && OnTables(move)
    ensures RootInOrder(Next(s, move))
  {
    assert Next(s, move).root == s.root;
  }

  lemma OtherMoveKeepsRoot(s: Target, move: Move, m: Entries)
    requires Orderly(s, m) && Allowed(s, move) && !OnTables(move)
    ensures RootInOrder(Next(s, move))
  {
    if move.Crash? {
      assert ComesBack(s.root, WalFolder, Get(move.root, WalFolder));
    }
  }

  lemma MoveKeepsOrderly(s: Target, move: Move, m: Entries)
    requires Orderly(s, m) && Allowed(s, move) && (move.Begin? ==> move.backup.entries == m)
    ensures Orderly(Next(s, move), m)
  {
    MoveKeepsInv(s, move);
    MoveKeepsNames(s, move, m);
    if OnTables(move) {
      TableMoveKeepsStagingGone(s, move, m);
      TableMoveKeepsRoot(s, move, m);
    } else {
      OtherMoveKeepsStagingGone(s, move, m);
      OtherMoveKeepsRoot(s, move, m);
    }
  }

  lemma {:induction false} RerunsStayOrderly(states: seq<Target>, moves: seq<Move>, m: Entries, i: nat)
    requires OneBackup(states, moves, m) && i < |states|
    ensures Orderly(states[i], m)
  {
    if i > 0 {
      RerunsStayOrderly(states, moves, m, i - 1);
      MoveKeepsOrderly(states[i - 1], moves[i - 1], m);
    }
  }

  // -------------------------------------------------------------- results

  /** Exactly the backup's tables, with their bytes, and the three names of a
      database around them; no staging file and no leftover. */
  ghost predicate ExactlyRestored(s: Target, m: Entries) {
    && s.root.live == map[Manifest := File(m, true), SstFolder := Folder, WalFolder := Folder]
    && (forall n | n in s.sst.live :: n.Sst? && Named(m, n))
    && (forall e | e in m :: Get(s.sst, Sst(e.fileId)) == Some(File(e.id, true)))
  }

  lemma RestoredIsExact(states: seq<Target>, moves: seq<Move>, m: Entries, i: nat)
    requires OneBackup(states, moves, m) && i < |moves| && moves[i].SyncRoot?
    ensures states[i + 1].outcome == Restored(m) && ExactlyRestored(states[i + 1], m)
  {
    var s := states[i];
    RerunsStayOrderly(states, moves, m, i);
    RootIsExact(s);
    forall n | n in s.sst.live ensures n.Sst? && Named(m, n) {
      assert Get(s.sst, n) in Possible(s.sst, n) && Get(s.sst, n).Some?;
      assert Named(m, n);
      var j :| 0 <= j < |m| && m[j].fileId == n.fileId;
      assert SstStaging(m[j].fileId) !in s.sst.live;
    }
    forall e | e in m ensures Get(s.sst, Sst(e.fileId)) == Some(File(e.id, true)) {
      var j :| 0 <= j < |m| && m[j] == e;
      CertainNow(s.sst, Sst(m[j].fileId), m[j].id);
    }
  }

  lemma RootIsExact(s: Target)
    requires Inv(s) && RootInOrder(s) && s.at.ManifestPlaced?
    ensures s.root.live == map[Manifest := File(s.at.m, true), SstFolder := Folder, WalFolder := Folder]
  {
    var live := s.root.live;
    assert Get(s.root, SstFolder) in Possible(s.root, SstFolder);
    assert Get(s.root, WalFolder) in Possible(s.root, WalFolder);
    assert forall n | n in live :: n == Manifest || n == SstFolder || n == WalFolder;
  }

  /** However the attempts went, two directories restored from one backup hold
      the same names with the same contents. */
  lemma RerunsEndAlike(states: seq<Target>, moves: seq<Move>, i: nat,
                       others: seq<Target>, otherMoves: seq<Move>, j: nat, m: Entries)
    requires OneBackup(states, moves, m) && i < |moves| && moves[i].SyncRoot?
    requires OneBackup(others, otherMoves, m) && j < |otherMoves| && otherMoves[j].SyncRoot?
    ensures states[i + 1].root.live == others[j + 1].root.live && states[i + 1].sst.live == others[j + 1].sst.live
  {
    RestoredIsExact(states, moves, m, i);
    RestoredIsExact(others, otherMoves, m, j);
    SameTables(states[i + 1], others[j + 1], m);
    SameTables(others[j + 1], states[i + 1], m);
  }

  lemma SameTables(a: Target, b: Target, m: Entries)
    requires ExactlyRestored(a, m) && ExactlyRestored(b, m)
    ensures forall n | n in a.sst.live :: n in b.sst.live && a.sst.live[n] == b.sst.live[n]
  {
    forall n | n in a.sst.live ensures n in b.sst.live && a.sst.live[n] == b.sst.live[n] {
      var j :| 0 <= j < |m| && m[j].fileId == n.fileId;
      assert m[j] in m && n == Sst(m[j].fileId);
      assert Get(a.sst, n) == Get(b.sst, n);
    }
  }
}
