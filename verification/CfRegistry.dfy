/** The in-memory registry of column families: two maps, each written one
    entry at a time while readers look them up without a lock. */
module CfRegistry {
  import opened Words
  import opened FamilyKeys

  type Name = Bytes

  datatype Handle = Handle(name: Name, id: U32)

  /** Each map is the exact inverse of the other. */
  ghost predicate Inverse(byId: map<U32, Name>, byName: map<Name, U32>) {
    && (forall id | id in byId :: byId[id] in byName && byName[byId[id]] == id)
    && (forall n | n in byName :: byName[n] in byId && byId[byName[n]] == n)
  }

  function LoadedIds(entries: seq<(Name, U32)>): map<U32, Name> {
    if entries == [] then map[]
    else var (name, id) := entries[|entries| - 1]; LoadedIds(entries[..|entries| - 1])[id := name]
  }

  function LoadedNames(entries: seq<(Name, U32)>): map<Name, U32> {
    if entries == [] then map[]
    else var (name, id) := entries[|entries| - 1]; LoadedNames(entries[..|entries| - 1])[name := id]
  }

  predicate Distinct(entries: seq<(Name, U32)>) {
    forall i, j | 0 <= i < j < |entries| :: entries[i].0 != entries[j].0 && entries[i].1 != entries[j].1
  }

  lemma LastEntry(entries: seq<(Name, U32)>)
    requires entries != [] && Distinct(entries)
    ensures Distinct(entries[..|entries| - 1])
    ensures forall e :: e in entries <==> e in entries[..|entries| - 1] || e == entries[|entries| - 1]
    ensures forall e | e in entries[..|entries| - 1] ::
      e.0 != entries[|entries| - 1].0 && e.1 != entries[|entries| - 1].1
  {
    assert entries == entries[..|entries| - 1] + [entries[|entries| - 1]];
  }

  lemma {:induction false} LoadedNamesAreTheEntries(entries: seq<(Name, U32)>, name: Name, id: U32)
    requires Distinct(entries)
    ensures name in LoadedNames(entries) && LoadedNames(entries)[name] == id <==> (name, id) in entries
  {
    if entries != [] {
      LastEntry(entries);
      LoadedNamesAreTheEntries(entries[..|entries| - 1], name, id);
    }
  }

  lemma {:induction false} LoadedIdsAreTheEntries(entries: seq<(Name, U32)>, name: Name, id: U32)
    requires Distinct(entries)
    ensures id in LoadedIds(entries) && LoadedIds(entries)[id] == name <==> (name, id) in entries
  {
    if entries != [] {
      LastEntry(entries);
      LoadedIdsAreTheEntries(entries[..|entries| - 1], name, id);
    }
  }

  /** Entries with distinct names and distinct ids load into inverse maps. */
  lemma DistinctEntriesLoadInverse(entries: seq<(Name, U32)>)
    requires Distinct(entries)
    ensures Inverse(LoadedIds(entries), LoadedNames(entries))
  {
    forall id | id in LoadedIds(entries)
      ensures var n := LoadedIds(entries)[id]; n in LoadedNames(entries) && LoadedNames(entries)[n] == id
    {
      LoadedIdsAreTheEntries(entries, LoadedIds(entries)[id], id);
      LoadedNamesAreTheEntries(entries, LoadedIds(entries)[id], id);
    }
    forall n | n in LoadedNames(entries)
      ensures var id := LoadedNames(entries)[n]; id in LoadedIds(entries) && LoadedIds(entries)[id] == n
    {
      LoadedNamesAreTheEntries(entries, n, LoadedNames(entries)[n]);
      LoadedIdsAreTheEntries(entries, n, LoadedNames(entries)[n]);
    }
  }

  class CfRegistry {
    var byId: map<U32, Name>
    var byName: map<Name, U32>
    var nextId: U32

    ghost predicate Valid()
      reads this
    {
      Inverse(byId, byName) && forall id | id in byId :: id < nextId
    }

    constructor ()
      ensures Valid() && byId == map[] && byName == map[] && nextId == DEFAULT_CF_ID + 1
    {
      byId, byName, nextId := map[], map[], DEFAULT_CF_ID + 1;
    }

    method Insert(id: U32, name: Name)
      modifies this`byId, this`byName
      ensures byId == old(byId)[id := name] && byName == old(byName)[name := id]
    {
      byId := byId[id := name];
      byName := byName[name := id];
    }

    /** Load the registry at open, entry after entry. */
    method Load(entries: seq<(Name, U32)>, next: U32)
      modifies this
      ensures byId == LoadedIds(entries) && byName == LoadedNames(entries) && nextId == next
    {
      byId, byName := map[], map[];
      var k := 0;
      while k < |entries|
        invariant 0 <= k <= |entries|
        invariant byId == LoadedIds(entries[..k]) && byName == LoadedNames(entries[..k])
      {
        assert entries[..k + 1][..k] == entries[..k];
        Insert(entries[k].1, entries[k].0);
        k := k + 1;
      }
      assert entries[..k] == entries;
      nextId := next;
    }

    method Get(name: Name) returns (handle: Option<Handle>)
      requires Valid()
      ensures handle.Some? <==> name in byName
      ensures handle.Some? ==> handle.value == Handle(name, byName[name]) && handle.value.id in byId
    {
      if name !in byName {
        return None;
      }
      var id := byName[name];
      if id !in byId || byId[id] != name {
        return None;
      }
      return Some(Handle(name, id));
    }

    predicate IsLiveHandle(cf: Handle)
      reads this
    {
      cf.id in byId && byId[cf.id] == cf.name
    }

    /** The id the next create takes; none once the ids that have a range run
        out. */
    function NextId(): Option<U32>
      reads this
    {
      if nextId <= MAX_CF_ID then Some(nextId) else None
    }

    /** Make a family live, with an id from `NextId` and a name no live family
        has: exactly one handle becomes live and the counter passes its id. */
    method Publish(id: U32, name: Name) returns (handle: Handle)
      requires Valid() && NextId() == Some(id) && name !in byName
      modifies this
      ensures Valid() && handle == Handle(name, id)
      ensures byId == old(byId)[id := name] && byName == old(byName)[name := id] && nextId == id + 1
      ensures forall cf: Handle :: IsLiveHandle(cf) <==> cf == handle || old(IsLiveHandle(cf))
    {
      Insert(id, name);
      nextId := Max(nextId, id + 1);
      handle := Handle(name, id);
    }

    /** Drop a family. The name goes with it only while it still names this
        id, so a second retire of an id changes nothing. */
    method Retire(id: U32)
      requires Valid()
      modifies this`byId, this`byName
      ensures Valid()
      ensures forall cf: Handle :: IsLiveHandle(cf) <==> cf.id != id && old(IsLiveHandle(cf))
      ensures id !in old(byId) ==> byId == old(byId) && byName == old(byName)
    {
      if id in byId {
        var name := byId[id];
        byId := byId - {id};
        if name in byName && byName[name] == id {
          byName := byName - {name};
        }
      }
    }
  }

  /** A family id's life. */
  datatype Life = Unborn | Alive | Dropped

  function LifeOf(byId: map<U32, Name>, nextId: U32, id: U32): Life {
    if id in byId then Alive else if id < nextId then Dropped else Unborn
  }

  function Age(l: Life): nat {
    match l
    case Unborn => 0
    case Alive => 1
    case Dropped => 2
  }

  /** The id handed out is the counter's, and there is one exactly while the
      counter's family would have a range of keys. */
  lemma IdsGivenOutHaveARange(registry: CfRegistry)
    ensures registry.NextId().Some? <==>
      InRange(PrefixKey(registry.nextId, []), LowerBound(registry.nextId), UpperBound(registry.nextId))
    ensures registry.NextId().Some? ==> registry.NextId().value == registry.nextId
  {
    var id := registry.nextId;
    PrefixKeyRoundTrip(id, []);
    if id <= MAX_CF_ID {
      RangeIsTheFamily(id, PrefixKey(id, []));
    } else {
      NoRangePastTheLastId(PrefixKey(id, []));
    }
  }
}
