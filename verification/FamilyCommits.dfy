/** Families, writes and drops in commit order. Every commit is decided in
    turn: a write is checked against the registry before it takes a sequence,
    and a create or a drop changes the registry inside its own turn. */
module FamilyCommits {
  import opened Words
  import opened FamilyKeys
  import opened CfRegistry

  /** An operation of the log; its place in it is its sequence. */
  datatype Op =
    | Put(key: Bytes, value: Bytes)
    | Delete(key: Bytes)
    | DeleteRange(start: Bytes, end: Bytes)

  /** Whether `op` decides what a read of `key` finds. */
  predicate Covers(op: Op, key: Bytes) {
    match op
    case Put(k, _) => k == key
    case Delete(k) => k == key
    case DeleteRange(start, end) => InRange(key, start, end)
  }

  /** What a read at the newest sequence finds: the newest operation that
      covers the key decides. */
  function Lookup(log: seq<Op>, key: Bytes): Option<Bytes> {
    if log == [] then None
    else
      var last := log[|log| - 1];
      if !Covers(last, key) then Lookup(log[..|log| - 1], key)
      else if last.Put? then Some(last.value) else None
  }

  datatype State = State(log: seq<Op>, byId: map<U32, Name>, byName: map<Name, U32>, nextId: U32)

  /** A commit, in the order the ring decides them. A write carries whatever
      its caller asked for at some earlier moment. */
  datatype Step =
    | Write(ops: seq<Op>)
    | Create(name: Name)
    | Drop(cf: Handle)
    | Reopen(entries: seq<(Name, U32)>)

  const DEFAULT_CF_NAME: Name := [0x64, 0x65, 0x66, 0x61, 0x75, 0x6C, 0x74] // "default"

  function Init(): State {
    State([], map[DEFAULT_CF_ID := DEFAULT_CF_NAME], map[DEFAULT_CF_NAME := DEFAULT_CF_ID], DEFAULT_CF_ID + 1)
  }

  // ------------------------------------------------------------ the fence

  predicate Live(s: State, id: U32) {
    id == DEFAULT_CF_ID || id in s.byId
  }

  predicate FenceId(s: State, id: U32) {
    id == META_CF_ID || Live(s, id)
  }

  predicate FenceKey(s: State, key: Bytes) {
    FamilyOf(key).Some? && FenceId(s, FamilyOf(key).value)
  }

  /** A range that ends at the next family's first key writes nothing there. */
  predicate FenceOp(s: State, op: Op) {
    match op
    case Put(key, _) => FenceKey(s, key)
    case Delete(key) => FenceKey(s, key)
    case DeleteRange(start, end) =>
      FenceKey(s, start) && (end == UpperBound(FamilyOf(start).value) || FenceKey(s, end))
  }

  predicate Fence(s: State, ops: seq<Op>) {
    forall i | 0 <= i < |ops| :: FenceOp(s, ops[i])
  }

  function FirstKey(op: Op): Bytes {
    if op.DeleteRange? then op.start else op.key
  }

  /** A caller's operation: the interface refuses one on the registry's own
      family. */
  predicate Callers(op: Op) {
    FamilyOf(FirstKey(op)) != Some(META_CF_ID)
  }

  // ------------------------------------------------------------ the steps

  /** What opening the database reads back: an entry for each name key that
      holds an id, one by one, and the default family last. */
  ghost predicate ScanOf(log: seq<Op>, entries: seq<(Name, U32)>) {
    && entries != [] && entries[|entries| - 1] == (DEFAULT_CF_NAME, DEFAULT_CF_ID)
    && (forall i, j | 0 <= i < j < |entries| - 1 :: entries[i].0 != entries[j].0)
    && forall name: Name, id: U32 :: (name, id) in entries[..|entries| - 1] <==> Utf8(name) && Stored(log, name, id)
  }

  ghost predicate Stored(log: seq<Op>, name: Name, id: U32) {
    var v := Lookup(log, NameKey(name));
    v.Some? && |v.value| == CF_PREFIX_LEN && FromBigEndian(v.value) == id
  }

  function StoredNextId(log: seq<Op>): U32 {
    var v := Lookup(log, NextIdKey());
    if v.Some? && |v.value| == CF_PREFIX_LEN then FromBigEndian(v.value) else DEFAULT_CF_ID + 1
  }

  ghost predicate Enabled(s: State, step: Step) {
    match step
    case Write(ops) => forall i | 0 <= i < |ops| :: Callers(ops[i])
    case Create(name) => name != [] && Utf8(name)
    case Drop(cf) => true
    case Reopen(entries) => ScanOf(s.log, entries)
  }

  function CreateOps(name: Name, id: U32): seq<Op>
    requires id <= MAX_CF_ID
  {
    [Put(NameKey(name), BigEndian(id)), Put(NextIdKey(), BigEndian(id + 1))]
  }

  function DropOps(cf: Handle): seq<Op> {
    [Delete(NameKey(cf.name)), DeleteRange(LowerBound(cf.id), UpperBound(cf.id))]
  }

  predicate CanCreate(s: State, name: Name) {
    name !in s.byName && s.nextId <= MAX_CF_ID && Fence(s, CreateOps(name, s.nextId))
  }

  predicate CanDrop(s: State, cf: Handle) {
    && cf.id != DEFAULT_CF_ID && cf.id != META_CF_ID
    && cf.id in s.byId && s.byId[cf.id] == cf.name
    && Fence(s, DropOps(cf))
  }

  function Apply(s: State, step: Step): State {
    match step
    case Write(ops) => if Fence(s, ops) then s.(log := s.log + ops) else s
    case Create(name) =>
      if !CanCreate(s, name) then s
      else State(s.log + CreateOps(name, s.nextId), s.byId[s.nextId := name], s.byName[name := s.nextId], s.nextId + 1)
    case Drop(cf) =>
      if !CanDrop(s, cf) then s
      else State(s.log + DropOps(cf), s.byId - {cf.id}, s.byName - {cf.name}, s.nextId)
    case Reopen(entries) => State(s.log, LoadedIds(entries), LoadedNames(entries), StoredNextId(s.log))
  }

  ghost predicate Run(states: seq<State>, steps: seq<Step>) {
    && |states| == |steps| + 1
    && states[0] == Init()
    && forall i | 0 <= i < |steps| :: Enabled(states[i], steps[i]) && states[i + 1] == Apply(states[i], steps[i])
  }

  // ----------------------------------------------------------- invariant

  /** Nothing is visible outside the live families and the registry's own. */
  ghost predicate OnlyLiveVisible(s: State) {
    forall key: Bytes | Lookup(s.log, key).Some? :: FenceKey(s, key)
  }

  ghost predicate RegistrySound(s: State) {
    && Inverse(s.byId, s.byName)
    && (forall id | id in s.byId :: META_CF_ID < id < s.nextId)
    && DEFAULT_CF_ID in s.byId && s.byId[DEFAULT_CF_ID] == DEFAULT_CF_NAME
  }

  /** The log's name keys and counter say what the registry holds. */
  ghost predicate Mirrored(s: State) {
    && (forall name: Name :: MirroredName(s, name))
    && s.nextId == StoredNextId(s.log)
  }

  ghost predicate MirroredName(s: State, name: Name) {
    && (name in s.byName && name != DEFAULT_CF_NAME ==>
          Utf8(name) && Lookup(s.log, NameKey(name)) == Some(BigEndian(s.byName[name])))
    && (Lookup(s.log, NameKey(name)).Some? ==> name in s.byName && name != DEFAULT_CF_NAME)
  }

  ghost predicate Inv(s: State) {
    RegistrySound(s) && OnlyLiveVisible(s) && Mirrored(s)
  }

  // -------------------------------------------------------- reading a log

  lemma {:induction false} LookupUncovered(log: seq<Op>, ops: seq<Op>, key: Bytes)
    requires forall i | 0 <= i < |ops| :: !Covers(ops[i], key)
    ensures Lookup(log + ops, key) == Lookup(log, key)
  {
    if ops == [] {
      assert log + ops == log;
    } else {
      LookupUncovered(log, ops[..|ops| - 1], key);
      assert (log + ops)[..|log + ops| - 1] == log + ops[..|ops| - 1];
    }
  }

  /** A key visible after more operations was put by one of them, or visible
      before and covered by none. */
  lemma {:induction false} LookupAfter(log: seq<Op>, ops: seq<Op>, key: Bytes)
    requires Lookup(log + ops, key).Some?
    ensures (exists i :: 0 <= i < |ops| && ops[i].Put? && ops[i].key == key)
         || (Lookup(log, key).Some? && forall i | 0 <= i < |ops| :: !Covers(ops[i], key))
  {
    if ops == [] {
      assert log + ops == log;
    } else {
      assert (log + ops)[..|log + ops| - 1] == log + ops[..|ops| - 1];
      if !Covers(ops[|ops| - 1], key) {
        LookupAfter(log, ops[..|ops| - 1], key);
      }
    }
  }

  lemma LookupTwo(log: seq<Op>, a: Op, b: Op, key: Bytes)
    ensures Lookup(log + [a, b], key) ==
      if Covers(b, key) then (if b.Put? then Some(b.value) else None)
      else if Covers(a, key) then (if a.Put? then Some(a.value) else None)
      else Lookup(log, key)
  {
    var all := log + [a, b];
    assert all[..|all| - 1] == log + [a];
    assert (log + [a])[..|log|] == log;
  }

  /** No operation of a caller reaches the registry's keys. */
  lemma CallersMissTheRegistry(s: State, op: Op, key: Bytes)
    requires Callers(op) && FenceOp(s, op) && FamilyOf(key) == Some(META_CF_ID)
    ensures !Covers(op, key)
  {
    if op.DeleteRange? {
      PrefixKeyRoundTrip(0, key);
      PrefixKeyRoundTrip(0, op.start);
      PrefixKeyKeepsOrder(META_CF_ID, CallersKey(key), FamilyOf(op.start).value, CallersKey(op.start));
    }
  }

  // ------------------------------------------------------------ the steps

  lemma WriteKeepsInv(s: State, ops: seq<Op>)
    requires Inv(s) && Fence(s, ops) && forall i | 0 <= i < |ops| :: Callers(ops[i])
    ensures Inv(s.(log := s.log + ops))
  {
    var s' := s.(log := s.log + ops);
    forall key: Bytes | Lookup(s'.log, key).Some? ensures FenceKey(s', key) {
      LookupAfter(s.log, ops, key);
    }
    forall name: Name ensures MirroredName(s', name) {
      assert MirroredName(s, name);
      RegistryUntouched(s, ops, NameKey(name)) by { NameKeyRoundTrip(name, []); }
    }
    RegistryUntouched(s, ops, NextIdKey()) by { NameKeyRoundTrip([], []); }
  }

  lemma RegistryUntouched(s: State, ops: seq<Op>, key: Bytes)
    requires Fence(s, ops) && (forall i | 0 <= i < |ops| :: Callers(ops[i])) && FamilyOf(key) == Some(META_CF_ID)
    ensures Lookup(s.log + ops, key) == Lookup(s.log, key)
  {
    forall i | 0 <= i < |ops| ensures !Covers(ops[i], key) {
      CallersMissTheRegistry(s, ops[i], key);
    }
    LookupUncovered(s.log, ops, key);
  }

  lemma SameNameKey(a: Name, b: Name)
    ensures NameKey(a) == NameKey(b) <==> a == b
    ensures NameKey(a) != NextIdKey()
  {
    assert NameKey(a)[|NameScanPrefix()|..] == a && NameKey(b)[|NameScanPrefix()|..] == b;
    NameKeyRoundTrip(a, []);
    assert NameScanPrefix() <= NameKey(a);
  }

  lemma CreateKeepsInv(s: State, name: Name)
    requires Inv(s) && CanCreate(s, name) && name != [] && Utf8(name)
    ensures Inv(Apply(s, Create(name)))
  {
    var s' := Apply(s, Create(name));
    var ops := CreateOps(name, s.nextId);
    assert s'.log == s.log + [ops[0], ops[1]];
    BigEndianRoundTrip(s.nextId + 1);
    forall key: Bytes | Lookup(s'.log, key).Some? ensures FenceKey(s', key) {
      LookupTwo(s.log, ops[0], ops[1], key);
      NameKeyRoundTrip(name, []);
    }
    forall n: Name ensures MirroredName(s', n) {
      assert MirroredName(s, n);
      LookupTwo(s.log, ops[0], ops[1], NameKey(n));
      SameNameKey(n, name);
    }
    LookupTwo(s.log, ops[0], ops[1], NextIdKey());
  }

  /** The fence never refuses a drop its own range: it ends where the next
      family begins. */
  lemma DropPassesTheFence(s: State, cf: Handle)
    requires RegistrySound(s) && cf.id in s.byId && s.byId[cf.id] == cf.name
    ensures Fence(s, DropOps(cf))
  {
    NameKeyRoundTrip(cf.name, []);
    BigEndianRoundTrip(cf.id);
    assert LowerBound(cf.id)[..CF_PREFIX_LEN] == BigEndian(cf.id);
  }

  /** And a create its own keys. */
  lemma CreatePassesTheFence(s: State, name: Name)
    requires s.nextId <= MAX_CF_ID
    ensures Fence(s, CreateOps(name, s.nextId))
  {
    NameKeyRoundTrip(name, []);
  }

  lemma DropKeepsInv(s: State, cf: Handle)
    requires Inv(s) && CanDrop(s, cf)
    ensures Inv(Apply(s, Drop(cf)))
  {
    var s' := Apply(s, Drop(cf));
    var ops := DropOps(cf);
    assert s'.log == s.log + [ops[0], ops[1]];
    forall key: Bytes | Lookup(s'.log, key).Some? ensures FenceKey(s', key) {
      LookupTwo(s.log, ops[0], ops[1], key);
      assert FenceKey(s, key);
      RangeIsTheFamily(cf.id, key);
    }
    forall n: Name ensures MirroredName(s', n) {
      assert MirroredName(s, n);
      LookupTwo(s.log, ops[0], ops[1], NameKey(n));
      NameKeyRoundTrip(n, []);
      SameNameKey(n, cf.name);
      RangeIsTheFamily(cf.id, NameKey(n));
    }
    LookupTwo(s.log, ops[0], ops[1], NextIdKey());
    NameKeyRoundTrip([], []);
    SameNameKey(cf.name, []);
    RangeIsTheFamily(cf.id, NextIdKey());
  }

  /** Opening the database again gives back the registry as it was. */
  lemma ReopenRestoresTheRegistry(s: State, entries: seq<(Name, U32)>)
    requires Inv(s) && ScanOf(s.log, entries)
    ensures Apply(s, Reopen(entries)) == s
  {
    ScanIsTheRegistry(s, entries);
    forall name ensures name in LoadedNames(entries) <==> name in s.byName {
      if name in LoadedNames(entries) {
        LoadedNamesAreTheEntries(entries, name, LoadedNames(entries)[name]);
      }
      if name in s.byName {
        LoadedNamesAreTheEntries(entries, name, s.byName[name]);
      }
    }
    forall name | name in s.byName ensures LoadedNames(entries)[name] == s.byName[name] {
      LoadedNamesAreTheEntries(entries, name, s.byName[name]);
    }
    assert LoadedNames(entries) == s.byName;
    forall id ensures id in LoadedIds(entries) <==> id in s.byId {
      if id in LoadedIds(entries) {
        LoadedIdsAreTheEntries(entries, LoadedIds(entries)[id], id);
      }
      if id in s.byId {
        LoadedIdsAreTheEntries(entries, s.byId[id], id);
      }
    }
    forall id | id in s.byId ensures LoadedIds(entries)[id] == s.byId[id] {
      LoadedIdsAreTheEntries(entries, s.byId[id], id);
    }
    assert LoadedIds(entries) == s.byId;
  }

  lemma ScanIsTheRegistry(s: State, entries: seq<(Name, U32)>)
    requires Inv(s) && ScanOf(s.log, entries)
    ensures Distinct(entries)
    ensures forall name: Name, id: U32 :: (name, id) in entries <==> name in s.byName && s.byName[name] == id
  {
    var named, last := entries[..|entries| - 1], entries[|entries| - 1];
    assert entries == named + [last];
    forall name: Name, id: U32
      ensures (name, id) in named <==> name in s.byName && s.byName[name] == id && name != DEFAULT_CF_NAME
    {
      assert MirroredName(s, name);
      if name in s.byName {
        BigEndianRoundTrip(s.byName[name]);
      }
    }
    forall i, j | 0 <= i < j < |entries| ensures entries[i].0 != entries[j].0 && entries[i].1 != entries[j].1 {
      assert named[i] in named;
      if j < |named| {
        assert named[j] in named;
      }
    }
  }

  lemma StepKeepsInv(s: State, step: Step)
    requires Inv(s) && Enabled(s, step)
    ensures Inv(Apply(s, step))
  {
    match step
    case Write(ops) => if Fence(s, ops) { WriteKeepsInv(s, ops); }
    case Create(name) => if CanCreate(s, name) { CreateKeepsInv(s, name); }
    case Drop(cf) => if CanDrop(s, cf) { DropKeepsInv(s, cf); }
    case Reopen(entries) => ReopenRestoresTheRegistry(s, entries);
  }

  lemma {:induction false} RunKeepsInv(states: seq<State>, steps: seq<Step>, i: nat)
    requires Run(states, steps) && i < |states|
    ensures Inv(states[i])
  {
    if i > 0 {
      RunKeepsInv(states, steps, i - 1);
      StepKeepsInv(states[i - 1], steps[i - 1]);
    }
  }

  // ------------------------------------------------------------- results

  /** In every run, nothing is visible in the range of a family that is not
      live: dropped, or not yet created. */
  lemma NothingVisibleOutsideLiveFamilies(states: seq<State>, steps: seq<Step>, i: nat, id: U32, key: Bytes)
    requires Run(states, steps) && i < |states|
    requires META_CF_ID < id <= MAX_CF_ID && !Live(states[i], id)
    requires InRange(key, LowerBound(id), UpperBound(id))
    ensures Lookup(states[i].log, key).None?
  {
    RunKeepsInv(states, steps, i);
    if |key| >= CF_PREFIX_LEN {
      RangeIsTheFamily(id, key);
    }
  }

  /** A write racing a drop is refused or deleted: if it was sequenced, its
      families were live then, the one a range delete ends in among them; if its
      family is gone later, no read finds it. */
  lemma AcknowledgedWhileLive(states: seq<State>, steps: seq<Step>, i: nat, k: nat, j: nat)
    requires Run(states, steps) && i < |steps| && steps[i].Write? && k < |steps[i].ops|
    requires Fence(states[i], steps[i].ops) && i < j < |states|
    ensures var key := FirstKey(steps[i].ops[k]);
            && FamilyOf(key).Some? && Live(states[i], FamilyOf(key).value)
            && states[i].log + steps[i].ops <= states[j].log
            && (!Live(states[j], FamilyOf(key).value) ==> Lookup(states[j].log, key).None?)
    ensures var op := steps[i].ops[k];
      op.DeleteRange? && op.end != UpperBound(FamilyOf(op.start).value) ==>
        FamilyOf(op.end).Some? && FenceId(states[i], FamilyOf(op.end).value)
  {
    var key := FirstKey(steps[i].ops[k]);
    assert Callers(steps[i].ops[k]) && FenceOp(states[i], steps[i].ops[k]);
    LogOnlyGrows(states, steps, i + 1, j);
    RunKeepsInv(states, steps, j);
  }

  lemma {:induction false} LogOnlyGrows(states: seq<State>, steps: seq<Step>, i: nat, j: nat)
    requires Run(states, steps) && i <= j < |states|
    ensures states[i].log <= states[j].log
    decreases j - i
  {
    if i < j {
      LogOnlyGrows(states, steps, i, j - 1);
    }
  }

  /** An id goes from unborn to live to dropped and never back, reopens
      included. */
  lemma {:induction false} LivesMoveOneWay(states: seq<State>, steps: seq<Step>, i: nat, j: nat, id: U32)
    requires Run(states, steps) && i <= j < |states|
    ensures Age(LifeOf(states[i].byId, states[i].nextId, id)) <= Age(LifeOf(states[j].byId, states[j].nextId, id))
    decreases j - i
  {
    if i < j {
      LivesMoveOneWay(states, steps, i, j - 1, id);
      RunKeepsInv(states, steps, j - 1);
      LifeMovesOneWay(states[j - 1], steps[j - 1], id);
    }
  }

  lemma LifeMovesOneWay(s: State, step: Step, id: U32)
    requires Inv(s) && Enabled(s, step)
    ensures var t := Apply(s, step); Age(LifeOf(s.byId, s.nextId, id)) <= Age(LifeOf(t.byId, t.nextId, id))
  {
    if step.Reopen? {
      ReopenRestoresTheRegistry(s, step.entries);
    }
  }

  /** A family just created is empty, whatever families had its name before. */
  lemma NewFamiliesAreEmpty(states: seq<State>, steps: seq<Step>, i: nat, key: Bytes)
    requires Run(states, steps) && i < |steps| && steps[i].Create? && CanCreate(states[i], steps[i].name)
    requires |key| >= CF_PREFIX_LEN && FamilyOf(key) == Some(states[i].nextId)
    ensures states[i + 1].byName[steps[i].name] == states[i].nextId
    ensures Lookup(states[i + 1].log, key).None?
  {
    RunKeepsInv(states, steps, i);
    var ops := CreateOps(steps[i].name, states[i].nextId);
    assert states[i + 1].log == states[i].log + [ops[0], ops[1]];
    LookupTwo(states[i].log, ops[0], ops[1], key);
    NameKeyRoundTrip(steps[i].name, []);
  }

  /** A create is refused only when the ids have run out, and a drop only for
      a handle that is not live or names the default family. */
  lemma RefusalsAreTheStated(states: seq<State>, steps: seq<Step>, i: nat, name: Name, cf: Handle)
    requires Run(states, steps) && i < |states|
    ensures name !in states[i].byName ==> (CanCreate(states[i], name) <==> states[i].nextId <= MAX_CF_ID)
    ensures CanDrop(states[i], cf) <==>
      cf.id != DEFAULT_CF_ID && cf.id in states[i].byId && states[i].byId[cf.id] == cf.name
  {
    RunKeepsInv(states, steps, i);
    if states[i].nextId <= MAX_CF_ID {
      CreatePassesTheFence(states[i], name);
    }
    if cf.id in states[i].byId && states[i].byId[cf.id] == cf.name {
      DropPassesTheFence(states[i], cf);
    }
  }

  // ------------------------------------------- what each commit comes to

  /** The key is in the default family or one the registry has. */
  predicate Carried(byId: map<U32, Name>, key: Bytes) {
    FamilyOf(key).Some? && (FamilyOf(key).value == DEFAULT_CF_ID || FamilyOf(key).value in byId)
  }

  predicate Acceptable(byId: map<U32, Name>, op: Op) {
    && Carried(byId, FirstKey(op))
    && (op.DeleteRange? ==>
          || op.end == UpperBound(FamilyOf(op.start).value)
          || FamilyOf(op.end) == Some(META_CF_ID) || Carried(byId, op.end))
  }

  /** A write is sequenced, all of it, if and only if each operation is on a
      family that is live then, and each range delete ends with its family or in
      a live one; otherwise it changes nothing. */
  lemma WritesAreAcceptedExactlyWhen(states: seq<State>, steps: seq<Step>, i: nat)
    requires Run(states, steps) && i < |steps| && steps[i].Write?
    ensures states[i + 1].log == states[i].log + steps[i].ops <==>
      forall k | 0 <= k < |steps[i].ops| :: Acceptable(states[i].byId, steps[i].ops[k])
    ensures states[i + 1] == states[i] || states[i + 1] == states[i].(log := states[i].log + steps[i].ops)
  {
    var s, ops := states[i], steps[i].ops;
    forall k | 0 <= k < |ops| ensures FenceOp(s, ops[k]) <==> Acceptable(s.byId, ops[k]) {
      assert Callers(ops[k]);
    }
    assert Fence(s, ops) <==> forall k | 0 <= k < |ops| :: Acceptable(s.byId, ops[k]);
    assert |s.log + ops| == |s.log| + |ops|;
  }

  /** A read after a write that was sequenced finds what its last operation on
      the key says, and what it found before where none is on it. */
  lemma ReadsFindTheLastWrite(states: seq<State>, steps: seq<Step>, i: nat, k: nat, key: Bytes)
    requires Run(states, steps) && i < |steps| && steps[i].Write? && k <= |steps[i].ops|
    requires states[i + 1].log == states[i].log + steps[i].ops
    requires forall m | k <= m < |steps[i].ops| :: !Covers(steps[i].ops[m], key)
    requires k > 0 ==> Covers(steps[i].ops[k - 1], key)
    ensures Lookup(states[i + 1].log, key) ==
      if k == 0 then Lookup(states[i].log, key)
      else if steps[i].ops[k - 1].Put? then Some(steps[i].ops[k - 1].value) else None
  {
    var log, ops := states[i].log, steps[i].ops;
    assert log + ops == (log + ops[..k]) + ops[k..];
    LookupUncovered(log + ops[..k], ops[k..], key);
    if k == 0 {
      assert log + ops[..0] == log;
    } else {
      assert (log + ops[..k])[..|log| + k - 1] == log + ops[..k - 1];
    }
  }

  /** A create of a name no family has makes exactly it live, under the next id,
      and changes what is found in no family. */
  lemma CreatedIsLive(states: seq<State>, steps: seq<Step>, i: nat, key: Bytes)
    requires Run(states, steps) && i < |steps| && steps[i].Create?
    ensures steps[i].name in states[i].byName || states[i].nextId > MAX_CF_ID ==> states[i + 1] == states[i]
    ensures steps[i].name !in states[i].byName && states[i].nextId <= MAX_CF_ID ==>
      && states[i + 1].byId == states[i].byId[states[i].nextId := steps[i].name]
      && states[i + 1].byName == states[i].byName[steps[i].name := states[i].nextId]
      && states[i + 1].nextId == states[i].nextId + 1
    ensures FamilyOf(key) != Some(META_CF_ID) ==> Lookup(states[i + 1].log, key) == Lookup(states[i].log, key)
  {
    var s, name := states[i], steps[i].name;
    if s.nextId <= MAX_CF_ID {
      CreatePassesTheFence(s, name);
      if CanCreate(s, name) {
        var ops := CreateOps(name, s.nextId);
        assert states[i + 1].log == s.log + [ops[0], ops[1]];
        LookupTwo(s.log, ops[0], ops[1], key);
        NameKeyRoundTrip(name, []);
      }
    }
  }

  /** A drop of a live handle takes exactly it out, leaves nothing of it to be
      found, and changes what is found in no other family. */
  lemma DroppedIsGone(states: seq<State>, steps: seq<Step>, i: nat, key: Bytes)
    requires Run(states, steps) && i < |steps| && steps[i].Drop? && FamilyOf(key).Some?
    ensures var s, t, cf := states[i], states[i + 1], steps[i].cf;
      var live := cf.id != DEFAULT_CF_ID && cf.id in s.byId && s.byId[cf.id] == cf.name;
      && (!live ==> t == s)
      && (live ==>
            && t.byId == s.byId - {cf.id} && t.byName == s.byName - {cf.name} && t.nextId == s.nextId
            && (FamilyOf(key) == Some(cf.id) ==> Lookup(t.log, key).None?)
            && (FamilyOf(key) != Some(cf.id) && FamilyOf(key) != Some(META_CF_ID) ==>
                  Lookup(t.log, key) == Lookup(s.log, key)))
  {
    var s, cf := states[i], steps[i].cf;
    RunKeepsInv(states, steps, i);
    RefusalsAreTheStated(states, steps, i, [], cf);
    if CanDrop(s, cf) {
      var ops := DropOps(cf);
      assert states[i + 1].log == s.log + [ops[0], ops[1]];
      LookupTwo(s.log, ops[0], ops[1], key);
      NameKeyRoundTrip(cf.name, []);
      RangeIsTheFamily(cf.id, key);
    }
  }
}
