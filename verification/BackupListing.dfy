/** Walking `meta/`: the next id, the ids in order a bounded page at a time,
    and the purge that deletes the oldest. */
module BackupListing {
  import opened Words
  import opened BackupNames

  /** Ids one page holds. */
  const PAGE: nat := 1024

  /** A walk of the directory, each entry as `ParseBackupId` reads its name:
      every backup once, among entries that are no backup. */
  ghost predicate Enumerates(walk: seq<Option<U64>>, ids: set<U64>) {
    && (forall i, j | 0 <= i < j < |walk| && walk[i].Some? :: walk[i] != walk[j])
    && (forall i | 0 <= i < |walk| && walk[i].Some? :: walk[i].value in ids)
    && (forall id | id in ids :: Some(id) in walk)
  }

  /** The ids among the first `k` entries of a walk. */
  ghost function Met(walk: seq<Option<U64>>, k: nat): set<U64>
    requires k <= |walk|
  {
    if k == 0 then {}
    else if walk[k - 1].Some? then Met(walk, k - 1) + {walk[k - 1].value}
    else Met(walk, k - 1)
  }

  lemma {:induction false} MetIs(walk: seq<Option<U64>>, k: nat, id: U64)
    requires k <= |walk|
    ensures id in Met(walk, k) <==> exists i :: 0 <= i < k && walk[i] == Some(id)
  {
    if k > 0 {
      MetIs(walk, k - 1, id);
    }
  }

  /** A walk meets each backup for the first time when it comes to it, and has
      met them all at its end. */
  lemma MetNext(walk: seq<Option<U64>>, ids: set<U64>, k: nat)
    requires Enumerates(walk, ids) && k < |walk| && walk[k].Some?
    ensures walk[k].value !in Met(walk, k)
  {
    MetIs(walk, k, walk[k].value);
  }

  lemma MetAll(walk: seq<Option<U64>>, ids: set<U64>)
    requires Enumerates(walk, ids)
    ensures Met(walk, |walk|) == ids
  {
    forall id: U64 ensures id in Met(walk, |walk|) <==> id in ids {
      MetIs(walk, |walk|, id);
    }
  }

  /** Strictly ascending. */
  predicate Ascending(page: seq<U64>) {
    forall i, j | 0 <= i < j < |page| :: page[i] < page[j]
  }

  function Inserted(page: seq<U64>, id: U64): seq<U64> {
    if page == [] || page[|page| - 1] < id then page + [id]
    else Inserted(page[..|page| - 1], id) + [page[|page| - 1]]
  }

  lemma LastIsLargest(page: seq<U64>, x: U64)
    requires page != [] && Ascending(page) && x in page
    ensures x <= page[|page| - 1]
    ensures x == page[|page| - 1] || x in page[..|page| - 1]
  {
    var i :| 0 <= i < |page| && page[i] == x;
    if i < |page| - 1 {
      assert page[i] < page[|page| - 1];
      assert page[..|page| - 1][i] == x;
    }
  }

  lemma {:induction false} InsertedHolds(page: seq<U64>, id: U64, x: U64)
    ensures x in Inserted(page, id) <==> x in page || x == id
  {
    if page != [] && !(page[|page| - 1] < id) {
      InsertedHolds(page[..|page| - 1], id, x);
      assert page == page[..|page| - 1] + [page[|page| - 1]];
    }
  }

  lemma {:induction false} InsertedIsSorted(page: seq<U64>, id: U64)
    requires Ascending(page) && id !in page
    ensures Ascending(Inserted(page, id)) && |Inserted(page, id)| == |page| + 1
  {
    if page == [] {
    } else if page[|page| - 1] < id {
      forall i | 0 <= i < |page| ensures page[i] < id {
        LastIsLargest(page, page[i]);
      }
    } else {
      var before, last := page[..|page| - 1], page[|page| - 1];
      InsertedIsSorted(before, id);
      var grown := Inserted(before, id);
      forall i | 0 <= i < |grown| ensures grown[i] < last {
        assert grown[i] in grown;
        InsertedHolds(before, id, grown[i]);
        if grown[i] != id {
          var k :| 0 <= k < |before| && before[k] == grown[i];
          assert page[k] < page[|page| - 1];
        }
      }
    }
  }

  /** `page` holds the smallest members of `from`: as many as there are, up to
      `limit`. */
  ghost predicate Smallest(page: seq<U64>, from: set<U64>, limit: nat) {
    && Ascending(page) && |page| <= limit
    && (forall x | x in page :: x in from)
    && (forall x | x in from && x !in page :: |page| == limit && forall y | y in page :: y < x)
  }

  /** One more candidate: pushed while there is room, else in the place of the
      largest held if it is smaller. */
  function Offered(page: seq<U64>, id: U64, limit: nat): seq<U64> {
    if |page| < limit then Inserted(page, id)
    else if page != [] && id < page[|page| - 1] then Inserted(page[..|page| - 1], id)
    else page
  }

  lemma OfferedIsSmallest(page: seq<U64>, from: set<U64>, limit: nat, id: U64)
    requires Smallest(page, from, limit) && id !in from
    ensures Smallest(Offered(page, id, limit), from + {id}, limit)
  {
    if |page| < limit {
      InsertedIsSorted(page, id);
      forall x ensures x in Inserted(page, id) <==> x in page || x == id {
        InsertedHolds(page, id, x);
      }
    } else if page != [] && id < page[|page| - 1] {
      OfferedDisplaces(page, from, limit, id);
    } else if page != [] {
      forall y | y in page ensures y < id {
        LastIsLargest(page, y);
        assert page[|page| - 1] in page;
      }
    }
  }

  lemma OfferedDisplaces(page: seq<U64>, from: set<U64>, limit: nat, id: U64)
    requires Smallest(page, from, limit) && id !in from && |page| == limit > 0 && id < page[|page| - 1]
    ensures Smallest(Inserted(page[..|page| - 1], id), from + {id}, limit)
  {
    var before, last := page[..|page| - 1], page[|page| - 1];
    var grown := Inserted(before, id);
    assert forall x | x in before :: x in page;
    InsertedIsSorted(before, id);
    forall x ensures x in grown <==> x in before || x == id {
      InsertedHolds(before, id, x);
    }
    forall y | y in grown ensures y < last {
      if y != id {
        var k :| 0 <= k < |before| && before[k] == y;
        assert page[k] < page[|page| - 1];
      }
    }
    forall x | x in from + {id} && x !in grown ensures forall y | y in grown :: y < x {
      if x in page {
        LastIsLargest(page, x);
      } else {
        assert last in page;
      }
    }
  }

  ghost function Above(ids: set<U64>, after: Option<U64>): set<U64> {
    set x | x in ids && (after.None? || after.value < x)
  }

  /** `meta/`: the backups in it, by id, and whatever other names it holds. */
  class MetaDir {
    var ids: set<U64>
    const strays: set<string>

    ghost predicate Valid()
      reads this
    {
      forall n | n in strays :: ParseBackupId(n).None?
    }

    /** The directory's entries, in any order, parsed. */
    method Walk() returns (walk: seq<Option<U64>>)
      requires Valid()
      ensures Enumerates(walk, ids)
    {
      walk := [];
      var backups, others := ids, strays;
      while backups != {} || others != {}
        invariant backups <= ids && others <= strays
        invariant Enumerates(walk, ids - backups)
        decreases backups, others
      {
        if others != {} && (backups == {} || |others| <= |backups|) {
          var n :| n in others;
          others := others - {n};
          walk := walk + [ParseBackupId(n)];
        } else {
          var id :| id in backups;
          BackupNamesAreOneToOne(id, BackupFilename(id));
          MoreEnumerated(walk, ids - backups, id);
          backups := backups - {id};
          walk := walk + [ParseBackupId(BackupFilename(id))];
          assert ids - backups == ids - (backups + {id}) + {id};
        }
      }
      assert ids - backups == ids;
    }

    /** One past the largest id, or none when that is the largest there is or
        the walk fails (`broke`). */
    method NextBackupId(broke: bool) returns (next: Option<U64>)
      requires Valid()
      ensures next.None? <==> broke || U64_MAX in ids
      ensures next.Some? ==> forall id | id in ids :: id < next.value
      ensures next.Some? ==> next.value == 1 || next.value - 1 in ids
    {
      if broke {
        return None;
      }
      var walk := Walk();
      var last: U64 := 0;
      var k := 0;
      while k < |walk|
        invariant 0 <= k <= |walk|
        invariant forall id | id in Met(walk, k) :: id <= last
        invariant last == 0 || last in Met(walk, k)
      {
        if walk[k].Some? {
          last := Max(last, walk[k].value);
        }
        k := k + 1;
      }
      MetAll(walk, ids);
      next := if last == U64_MAX then None else Some(last + 1);
    }

    method CountBackups(broke: bool) returns (count: Option<nat>)
      requires Valid()
      ensures count == if broke then None else Some(|ids|)
    {
      if broke {
        return None;
      }
      var walk := Walk();
      var total := 0;
      var k := 0;
      while k < |walk|
        invariant 0 <= k <= |walk| && total == |Met(walk, k)|
      {
        if walk[k].Some? {
          MetNext(walk, ids, k);
          total := total + 1;
        }
        k := k + 1;
      }
      MetAll(walk, ids);
      count := Some(total);
    }

    /** The `limit` smallest ids above `after`, ascending, from one walk. */
    method PageAfter(after: Option<U64>, limit: nat) returns (page: seq<U64>)
      requires Valid()
      ensures Smallest(page, Above(ids, after), limit)
    {
      var walk := Walk();
      page := [];
      var k := 0;
      while k < |walk|
        invariant 0 <= k <= |walk|
        invariant Smallest(page, Above(Met(walk, k), after), limit)
      {
        OneMoreMet(walk, ids, k, after, page, limit);
        if walk[k].Some? && (after.None? || walk[k].value > after.value) {
          page := Offered(page, walk[k].value, limit);
        }
        k := k + 1;
      }
      MetAll(walk, ids);
    }

    /** Delete all but the `keep` newest backups, oldest first, a page of ids at
        a time; any walk may fail (`broke`), the first being the count, and so
        may a removal (`stuck`). What
        is deleted is always older than what is left, and `keep` are left; a
        purge that completes leaves exactly those. */
    method PurgeOldBackups(keep: nat, broke: nat -> bool, stuck: set<U64>) returns (completed: bool)
      requires Valid()
      modifies this
      ensures Valid() && ids <= old(ids)
      ensures forall x, y | x in old(ids) && x !in ids && y in ids :: x < y
      ensures |ids| >= Min(keep, |old(ids)|)
      ensures completed ==> |ids| == Min(keep, |old(ids)|)
      ensures stuck * old(ids) <= ids
      ensures broke(0) ==> !completed && ids == old(ids)
      ensures (forall walk :: !broke(walk)) && stuck !! old(ids) ==> completed
    {
      var total := CountBackups(broke(0));
      if total.None? {
        return false;
      }
      var budget := Max(total.value - keep, 0);
      var page: seq<U64>, after: Option<U64>, done, walks := [], None, false, 1;
      while budget > 0
        invariant Valid() && ids <= old(ids) && stuck * old(ids) <= ids
        invariant 0 <= budget && |ids| == Min(keep, |old(ids)|) + budget
        invariant forall x, y | x in old(ids) && x !in ids && y in ids :: x < y
        invariant forall y | y in ids :: after.None? || after.value < y
        invariant Smallest(page, ids, |page|) && (done ==> forall y | y in ids :: y in page)
        decreases budget, if page == [] then 1 else 0, if done then 0 else 1
      {
        if page != [] {
          PageHead(page, ids);
          PageTail(page, ids);
          if page[0] in stuck {
            return false;
          }
          ids := ids - {page[0]};
          page, after, budget := page[1..], Some(page[0]), budget - 1;
        } else if done {
          assert false;
        } else {
          if broke(walks) {
            return false;
          }
          walks := walks + 1;
          page := PageAfter(after, PAGE);
          assert Above(ids, after) == ids;
          done := |page| < PAGE;
        }
      }
      completed := true;
    }
  }

  /** What one more entry of the walk does to the smallest ids above `after`. */
  lemma OneMoreMet(walk: seq<Option<U64>>, ids: set<U64>, k: nat, after: Option<U64>, page: seq<U64>, limit: nat)
    requires Enumerates(walk, ids) && k < |walk| && Smallest(page, Above(Met(walk, k), after), limit)
    ensures
      var wanted := walk[k].Some? && (after.None? || walk[k].value > after.value);
      Smallest(if wanted then Offered(page, walk[k].value, limit) else page, Above(Met(walk, k + 1), after), limit)
  {
    var seen := Above(Met(walk, k), after);
    if walk[k].Some? && (after.None? || walk[k].value > after.value) {
      MetNext(walk, ids, k);
      OfferedIsSmallest(page, seen, limit, walk[k].value);
      assert Above(Met(walk, k + 1), after) == seen + {walk[k].value};
    } else {
      assert Above(Met(walk, k + 1), after) == seen;
    }
  }

  lemma MoreEnumerated(walk: seq<Option<U64>>, ids: set<U64>, id: U64)
    requires Enumerates(walk, ids) && id !in ids
    ensures Enumerates(walk + [Some(id)], ids + {id})
  {
    var more := walk + [Some(id)];
    forall x | x in ids + {id} ensures Some(x) in more {
      if x == id {
        assert more[|walk|] == Some(id);
      } else {
        assert Some(x) in walk;
      }
    }
  }

  lemma PageHead(page: seq<U64>, ids: set<U64>)
    requires page != [] && Smallest(page, ids, |page|)
    ensures page[0] in ids && forall y | y in ids && y != page[0] :: page[0] < y
  {
    assert page[0] in page;
    forall y | y in ids && y != page[0] ensures page[0] < y {
      if y in page {
        var i :| 0 <= i < |page| && page[i] == y;
        assert page[0] < page[i];
      }
    }
  }

  lemma PageTail(page: seq<U64>, ids: set<U64>)
    requires page != [] && Smallest(page, ids, |page|)
    ensures Smallest(page[1..], ids - {page[0]}, |page| - 1)
    ensures forall y | y in page && y != page[0] :: y in page[1..]
  {
    forall y | y in page[1..] ensures y != page[0] && y in page {
      var i :| 0 <= i < |page| - 1 && page[1..][i] == y;
      assert page[i + 1] == y;
    }
    forall y | y in page && y != page[0] ensures y in page[1..] {
      var i :| 0 <= i < |page| && page[i] == y;
      assert page[1..][i - 1] == y;
    }
  }
}
