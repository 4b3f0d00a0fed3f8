/** The registry's maps written one entry at a time, with readers in between. */
module CfRegistryRuns {
  import opened Words
  import opened FamilyKeys
  import opened CfRegistry

  /** The map write of an ordered step still to come. */
  datatype Pending = Settled | Naming(id: U32, name: Name) | Counting(id: U32) | Unnaming(id: U32, name: Name)

  datatype State = State(byId: map<U32, Name>, byName: map<Name, U32>, nextId: U32, pending: Pending)

  /** One map write. `Publish` and `Retire` begin an ordered step, `Finish`
      makes its next write. */
  datatype Step = Publish(name: Name) | Retire(id: U32) | Finish

  predicate Enabled(s: State, step: Step) {
    match step
    case Publish(name) => s.pending.Settled? && s.nextId <= MAX_CF_ID && !Published(s, name)
    case Retire(_) => s.pending.Settled?
    case Finish => !s.pending.Settled?
  }

  function Apply(s: State, step: Step): State
    requires Enabled(s, step)
  {
    match step
    case Publish(name) => s.(byId := s.byId[s.nextId := name], pending := Naming(s.nextId, name))
    case Retire(id) =>
      if id in s.byId then s.(byId := s.byId - {id}, pending := Unnaming(id, s.byId[id])) else s
    case Finish =>
      match s.pending
      case Naming(id, name) => s.(byName := s.byName[name := id], pending := Counting(id))
      case Counting(id) => s.(nextId := Max(s.nextId, Min(id + 1, U32_MAX)), pending := Settled)
      case Unnaming(id, name) =>
        s.(byName := if name in s.byName && s.byName[name] == id then s.byName - {name} else s.byName,
           pending := Settled)
  }

  /** `get`: the name is looked up in one state and the id it gave in a later
      one. */
  function Get(first: State, second: State, name: Name): Option<U32> {
    if name !in first.byName then None
    else
      var id := first.byName[name];
      if id !in second.byId || second.byId[id] != name then None else Some(id)
  }

  /** Both maps know the family of this name. */
  predicate Published(s: State, name: Name) {
    name in s.byName && s.byName[name] in s.byId && s.byId[s.byName[name]] == name
  }

  ghost predicate Inv(s: State) {
    && (forall id | id in s.byId ::
          id < s.nextId || (id == s.nextId && (s.pending == Naming(id, s.byId[id]) || s.pending == Counting(id))))
    && match s.pending
       case Settled => Inverse(s.byId, s.byName)
       case Naming(id, name) =>
         && id == s.nextId <= MAX_CF_ID && id in s.byId && s.byId[id] == name && name !in s.byName
         && Inverse(s.byId - {id}, s.byName)
       case Counting(id) => id == s.nextId <= MAX_CF_ID && Inverse(s.byId, s.byName)
       case Unnaming(id, name) =>
         && id !in s.byId && id < s.nextId && name in s.byName && s.byName[name] == id
         && Inverse(s.byId, s.byName - {name})
  }

  ghost predicate Run(states: seq<State>, steps: seq<Step>) {
    && |states| == |steps| + 1
    && states[0].pending.Settled? && Inv(states[0])
    && forall i | 0 <= i < |steps| :: Enabled(states[i], steps[i]) && states[i + 1] == Apply(states[i], steps[i])
  }

  lemma StepKeepsInv(s: State, step: Step)
    requires Inv(s) && Enabled(s, step)
    ensures Inv(Apply(s, step))
  {
    var s' := Apply(s, step);
    match step
    case Publish(name) =>
      assert s'.byId - {s.nextId} == s.byId;
    case Retire(id) =>
      if id in s.byId {
        var name := s.byId[id];
        assert Inverse(s'.byId, s.byName - {name});
      }
    case Finish =>
      if s.pending.Naming? {
        assert forall x | x in s.byId && x != s.pending.id :: x in s.byId - {s.pending.id};
      }
  }

  lemma {:induction false} RunKeepsInv(states: seq<State>, steps: seq<Step>, i: nat)
    requires Run(states, steps) && i < |states|
    ensures Inv(states[i])
  {
    if i > 0 {
      RunKeepsInv(states, steps, i - 1);
      StepKeepsInv(states[i - 1], steps[i - 1]);
    }
  }

  /** Between ordered steps the two maps are exact inverses. */
  lemma SettledMapsAreInverses(states: seq<State>, steps: seq<Step>, i: nat)
    requires Run(states, steps) && i < |states| && states[i].pending.Settled?
    ensures Inverse(states[i].byId, states[i].byName)
  {
    RunKeepsInv(states, steps, i);
  }

  /** While a name stays published its id does not change. */
  lemma {:induction false} PublishedKeepsItsId(states: seq<State>, steps: seq<Step>, i: nat, j: nat, name: Name)
    requires Run(states, steps) && i <= j < |states|
    requires forall k | i <= k <= j :: Published(states[k], name)
    ensures Get(states[j], states[j], name) == Get(states[i], states[i], name)
    decreases j - i
  {
    if i < j {
      PublishedKeepsItsId(states, steps, i, j - 1, name);
      RunKeepsInv(states, steps, j - 1);
    }
  }

  /** A reader that finds nothing was right at some moment of its call: the
      name was then not in both maps. Whatever the single map writes between
      its two lookups were. */
  lemma GetMissesOnlyTheUnpublished(states: seq<State>, steps: seq<Step>, i: nat, j: nat, name: Name)
    requires Run(states, steps) && i <= j < |states|
    requires Get(states[i], states[j], name).None?
    ensures exists k :: i <= k <= j && !Published(states[k], name)
  {
    if forall k | i <= k <= j :: Published(states[k], name) {
      PublishedKeepsItsId(states, steps, i, j, name);
      assert false;
    }
  }

  /** A reader that finds a handle found an id live under that name at its
      second lookup, and no other id was. */
  lemma GetFindsTheLiveOne(states: seq<State>, steps: seq<Step>, i: nat, j: nat, name: Name, other: U32)
    requires Run(states, steps) && i <= j < |states|
    requires Get(states[i], states[j], name).Some?
    ensures var id := Get(states[i], states[j], name).value;
            && id in states[j].byId && states[j].byId[id] == name
            && (other in states[j].byId && states[j].byId[other] == name ==> other == id)
  {
    RunKeepsInv(states, steps, j);
    var s := states[j];
    if s.pending.Naming? {
      assert forall x | x in s.byId && x != s.pending.id :: x in s.byId - {s.pending.id};
    }
  }

  /** Retiring an id that is already gone, or any other family's, leaves a
      published name with the id it has. */
  lemma RetireLeavesOthersNamed(s: State, id: U32, name: Name)
    requires Inv(s) && s.pending.Settled? && Published(s, name) && s.byName[name] != id
    ensures var begun := Apply(s, Retire(id));
            var done := if begun.pending.Settled? then begun else Apply(begun, Finish);
            done.pending.Settled? && Get(done, done, name) == Get(s, s, name)
  {
  }

  // --------------------------------------------------------- a life cycle

  /** An id goes from unborn to live to dropped and never back. */
  lemma {:induction false} LivesMoveOneWay(states: seq<State>, steps: seq<Step>, i: nat, j: nat, id: U32)
    requires Run(states, steps) && i <= j < |states|
    ensures Age(LifeOf(states[i].byId, states[i].nextId, id)) <= Age(LifeOf(states[j].byId, states[j].nextId, id))
    decreases j - i
  {
    if i < j {
      LivesMoveOneWay(states, steps, i, j - 1, id);
      RunKeepsInv(states, steps, j - 1);
    }
  }

  /** A reader whose name stays published while it looks finds its id. */
  lemma GetFindsThePublished(states: seq<State>, steps: seq<Step>, i: nat, j: nat, name: Name)
    requires Run(states, steps) && i <= j < |states|
    requires forall k | i <= k <= j :: Published(states[k], name)
    ensures Published(states[i], name) && Get(states[i], states[j], name) == Some(states[i].byName[name])
  {
    PublishedKeepsItsId(states, steps, i, j, name);
  }

  /** With nobody in between, the writes of a publish come to one: the new id
      under its name in both maps, and the counter past it. */
  lemma PublishAlone(s: State, name: Name)
    requires Inv(s) && Enabled(s, Publish(name))
    ensures var named := Apply(Apply(s, Publish(name)), Finish);
      Apply(named, Finish) == State(s.byId[s.nextId := name], s.byName[name := s.nextId], s.nextId + 1, Settled)
  {
  }

  /** And those of a retire: the id and its name gone from both maps. */
  lemma RetireAlone(s: State, id: U32)
    requires Inv(s) && s.pending.Settled?
    ensures id !in s.byId ==> Apply(s, Retire(id)) == s
    ensures id in s.byId ==>
      Apply(Apply(s, Retire(id)), Finish) == s.(byId := s.byId - {id}, byName := s.byName - {s.byId[id]})
  {
  }
}
