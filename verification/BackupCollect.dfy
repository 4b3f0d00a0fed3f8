/** Removing the shared tables no backup lists, a bounded batch at a time. */
module BackupCollect {
  import opened Words

  /** Tables one sweep decides on. */
  const SWEEP: nat := 1024

  /** A table's content id. */
  type Hash = nat

  class Repository {
    /** The tables in `shared/`. */
    var tables: set<Hash>
    /** What each backup in `meta/` lists. */
    const listings: map<U64, set<Hash>>
    /** Tables that cannot be removed. */
    const stuck: set<Hash>

    constructor (tables: set<Hash>, listings: map<U64, set<Hash>>, stuck: set<Hash>)
      ensures this.tables == tables && this.listings == listings && this.stuck == stuck
    {
      this.tables, this.listings, this.stuck := tables, listings, stuck;
    }

    ghost predicate Listed(h: Hash) {
      exists id :: id in listings && h in listings[id]
    }

    /** One batch, with the listings that cannot be read at the time: every
        listing is read before anything is removed, and what is removed is of
        the batch and in none of them. */
    method Sweep(batch: set<Hash>, unreadable: set<U64>) returns (ok: bool)
      modifies this
      ensures !(unreadable !! listings.Keys) ==> !ok && tables == old(tables)
      ensures unreadable !! listings.Keys && batch !! stuck ==> ok
      ensures forall h :: h in tables ==> h in old(tables)
      ensures forall h | h in old(tables) && h !in tables :: h in batch && !Listed(h)
      ensures ok ==> forall h | h in batch && !Listed(h) :: h !in tables
    {
      var unlisted, unread := batch, listings.Keys;
      while unread != {}
        invariant unread <= listings.Keys && tables == old(tables) && unlisted <= batch
        invariant unreadable !! listings.Keys - unread
        invariant forall h | h in batch :: h !in unlisted <==>
          exists id :: id in listings && id !in unread && h in listings[id]
        decreases |unread|
      {
        var id :| id in unread;
        if id in unreadable {
          return false;
        }
        unlisted, unread := unlisted - listings[id], unread - {id};
      }
      assert forall h | h in batch :: h in unlisted <==> !Listed(h);
      ok := RemoveAll(unlisted);
    }

    method RemoveAll(unlisted: set<Hash>) returns (ok: bool)
      modifies this
      ensures ok ==> tables == old(tables) - unlisted
      ensures tables <= old(tables) && old(tables) - tables <= unlisted
      ensures unlisted !! stuck ==> ok
    {
      var rest := unlisted;
      while rest != {}
        invariant rest <= unlisted && tables == old(tables) - (unlisted - rest)
        decreases |rest|
      {
        var h :| h in rest;
        if h in stuck {
          return false;
        }
        tables, rest := tables - {h}, rest - {h};
      }
      return true;
    }

    /** The tables the walk meets from `p` on, up to a full batch. */
    method NextBatch(walk: seq<Option<Hash>>, p: nat) returns (batch: set<Hash>, next: nat, ended: bool)
      requires p <= |walk|
      ensures p <= next <= |walk| && (if ended then next == |walk| else next > p)
      ensures forall h :: h in batch <==> Some(h) in walk[p..next]
      ensures |batch| <= SWEEP && (!ended ==> |batch| == SWEEP)
    {
      batch, next, ended := {}, p, true;
      while next < |walk| && ended
        invariant p <= next <= |walk| && |batch| <= SWEEP && (if ended then |batch| < SWEEP else |batch| == SWEEP && next > p)
        invariant forall h :: h in batch <==> Some(h) in walk[p..next]
      {
        var entry := walk[next];
        next := next + 1;
        assert walk[p..next] == walk[p..next - 1] + [entry];
        if entry.Some? {
          batch := batch + {entry.value};
          ended := |batch| < SWEEP;
        }
      }
    }

    /** The whole collection, over one walk of `shared/` in which the entries
        that are no table are none; `unreadable(k)` are the listings that
        cannot be read by the time of sweep `k`. A collection that completes
        read every listing in every one of its sweeps and leaves exactly the
        listed tables. One that does not has removed only unlisted ones, in the
        sweeps before the one that failed, and none at all where the first
        cannot read a listing. */
    method CollectShared(walk: seq<Option<Hash>>, unreadable: nat -> set<U64>) returns (ok: bool, sweeps: nat)
      requires forall h :: h in tables <==> Some(h) in walk
      modifies this
      ensures ok ==> sweeps > 0 && forall h :: h in tables <==> h in old(tables) && Listed(h)
      ensures forall k: nat | k < sweeps :: unreadable(k) !! listings.Keys
      ensures !(unreadable(0) !! listings.Keys) ==> !ok && tables == old(tables)
      ensures forall h :: h in tables ==> h in old(tables)
      ensures forall h | h in old(tables) && Listed(h) :: h in tables
      ensures (forall k :: unreadable(k) !! listings.Keys) && old(tables) !! stuck ==> ok
      ensures !ok && old(tables) !! stuck ==> !(unreadable(sweeps) !! listings.Keys)
    {
      var p, ended := 0, false;
      sweeps := 0;
      while !ended
        invariant p <= |walk| && (sweeps == 0 ==> p == 0 && tables == old(tables)) && (ended ==> p == |walk| && sweeps > 0)
        invariant forall k: nat | k < sweeps :: unreadable(k) !! listings.Keys
        invariant forall h :: h in tables ==> h in old(tables)
        invariant forall h | h in old(tables) && h !in tables :: !Listed(h)
        invariant forall h | Some(h) in walk[..p] && !Listed(h) :: h !in tables
        decreases !ended, |walk| - p
      {
        var batch, next, through := NextBatch(walk, p);
        ended := through;
        assert walk[..next] == walk[..p] + walk[p..next];
        if sweeps == 0 || batch != {} {
          assert forall h | h in batch :: Some(h) in walk;
          var swept := Sweep(batch, unreadable(sweeps));
          if !swept {
            return false, sweeps;
          }
          sweeps := sweeps + 1;
        }
        p := next;
      }
      assert walk[..p] == walk;
      return true, sweeps;
    }
  }
}
