/** A prefix seek that leaves out the tables whose prefix bloom says they hold
    nothing under the prefix, against a scan of every table. */
module PrefixSeek {
  import opened Words
  import opened FamilyKeys
  import BackupNames

  /** The caller's extractor: what it carves out of a key, what it lets a seek
      ask for, and the name its tables record. */
  datatype Extractor = Extractor(name: string, extract: Bytes -> Option<Bytes>, query: Bytes -> Option<Bytes>)

  /** The trait's own `extract_query`: only a whole extracted prefix may be
      asked for. */
  function DefaultQuery(extract: Bytes -> Option<Bytes>, prefix: Bytes): Option<Bytes> {
    if extract(prefix) == Some(prefix) then Some(prefix) else None
  }

  function WithDefaultQuery(name: string, extract: Bytes -> Option<Bytes>): Extractor {
    Extractor(name, extract, prefix => DefaultQuery(extract, prefix))
  }

  // ----------------------------------------------------- blooms and probes

  /** An engine key's family id and the caller's key; nothing for the
      database's own entries. */
  function Callers(prefixed: Bytes): Option<(Bytes, Bytes)> {
    if |prefixed| < CF_PREFIX_LEN || FromBigEndian(prefixed[..CF_PREFIX_LEN]) == META_CF_ID then None
    else Some((prefixed[..CF_PREFIX_LEN], prefixed[CF_PREFIX_LEN..]))
  }

  function Tagged(family: Bytes, prefix: Option<Bytes>): Option<Bytes> {
    if prefix.Some? then Some(family + prefix.value) else None
  }

  /** The bloom entry of an engine key, in the named form. */
  function EntryOf(extract: Bytes -> Option<Bytes>, prefixed: Bytes): Option<Bytes> {
    var callers := Callers(prefixed);
    if callers.None? then None else Tagged(callers.value.0, extract(callers.value.1))
  }

  /** The bloom key of a seek for an engine prefix. */
  function ProbeOf(e: Extractor, prefixed: Bytes): Option<Bytes> {
    var callers := Callers(prefixed);
    if callers.None? then None else Tagged(callers.value.0, e.query(callers.value.1))
  }

  /** A table's prefix bloom. One that records no name is of an older form,
      whatever key it was built from. */
  datatype Filter = NoBloom | Unnamed(bloom: Bytes -> bool) | Named(builtBy: string, bloom: Bytes -> bool)

  predicate MayHavePrefix(filter: Filter, e: Extractor, prefixed: Bytes) {
    match filter
    case Named(builtBy, bloom) =>
      var probe := if builtBy == e.name then ProbeOf(e, prefixed) else None;
      probe.None? || bloom(probe.value)
    case _ => true
  }

  /** The prefix entries of a table as its writer hashes them: the keys come in
      order, and an entry equal to the one before it is not hashed again. */
  class PrefixBloomBuilder {
    const extract: Bytes -> Option<Bytes>
    var hashed: seq<Bytes>
    var last: Option<Bytes>

    ghost predicate Valid()
      reads this
    {
      last.Some? ==> last.value in hashed
    }

    constructor (extract: Bytes -> Option<Bytes>)
      ensures Valid() && this.extract == extract && hashed == []
    {
      this.extract, hashed, last := extract, [], None;
    }

    method AddKey(prefixed: Bytes)
      requires Valid()
      modifies this
      ensures Valid()
      ensures forall entry :: entry in hashed <==> entry in old(hashed) || EntryOf(extract, prefixed) == Some(entry)
    {
      var entry := EntryOf(extract, prefixed);
      if entry.Some? && last != entry {
        hashed, last := hashed + [entry.value], entry;
      }
    }
  }

  /** What the bloom of a table of `keys` is built from: each key's entry, and
      nothing else. */
  method HashPrefixes(extract: Bytes -> Option<Bytes>, keys: seq<Bytes>) returns (hashed: seq<Bytes>)
    ensures forall entry :: entry in hashed <==> exists i :: 0 <= i < |keys| && EntryOf(extract, keys[i]) == Some(entry)
  {
    var builder := new PrefixBloomBuilder(extract);
    for k := 0 to |keys|
      invariant builder.Valid() && builder.extract == extract
      invariant forall entry :: entry in builder.hashed <==> exists i :: 0 <= i < k && EntryOf(extract, keys[i]) == Some(entry)
    {
      builder.AddKey(keys[k]);
    }
    hashed := builder.hashed;
  }

  // --------------------------------------------------------------- tables

  /** A table, or a memtable without a filter: for each key it has, its newest
      value, or none where it deletes the key. */
  datatype Table = Table(rows: map<Bytes, Option<Bytes>>, filter: Filter)

  /** What each extractor name stands for: two extractors that carve out
      different prefixes have different names. */
  type Names = string -> (Bytes -> Option<Bytes>)

  /** A named bloom knows the entry of every key of its table. */
  ghost predicate Honest(t: Table, names: Names) {
    t.filter.Named? ==> forall key | key in t.rows ::
      var entry := EntryOf(names(t.filter.builtBy), key); entry.Some? ==> t.filter.bloom(entry.value)
  }

  ghost predicate AllHonest(stack: seq<Table>, names: Names) {
    forall i | 0 <= i < |stack| :: Honest(stack[i], names)
  }

  /** What the stack, newest first, has for `key`. */
  function Look(stack: seq<Table>, key: Bytes): Option<Bytes> {
    if stack == [] then None
    else if key in stack[0].rows then stack[0].rows[key]
    else Look(stack[1..], key)
  }

  /** The newest table that has the key decides, by a row or a delete. */
  lemma {:induction false} TheNewestTableWins(stack: seq<Table>, i: nat, key: Bytes)
    requires i <= |stack| && forall j | 0 <= j < i :: key !in stack[j].rows
    requires i < |stack| ==> key in stack[i].rows
    ensures Look(stack, key) == if i < |stack| then stack[i].rows[key] else None
  {
    if i > 0 {
      TheNewestTableWins(stack[1..], i - 1, key);
    }
  }

  /** One prefix in two families is two entries, so a seek in one is not
      answered by the other's keys; and the database's own entries are not
      filed, nor asked for. */
  lemma FamiliesAreFiledApart(e: Extractor, prefixed: Bytes, key: Bytes)
    ensures ProbeOf(e, prefixed).Some? && ProbeOf(e, prefixed) == EntryOf(e.extract, key) ==>
      FamilyOf(prefixed) == FamilyOf(key) && FamilyOf(key).Some?
    ensures FamilyOf(key) == Some(META_CF_ID) ==> EntryOf(e.extract, key).None? && ProbeOf(e, key).None?
  {
    var probe, entry := ProbeOf(e, prefixed), EntryOf(e.extract, key);
    if probe.Some? && probe == entry {
      assert probe.value[..CF_PREFIX_LEN] == prefixed[..CF_PREFIX_LEN];
      assert entry.value[..CF_PREFIX_LEN] == key[..CF_PREFIX_LEN];
    }
  }

  /** The tables a seek reads. */
  function NotRuledOut(stack: seq<Table>, e: Extractor, prefixed: Bytes): seq<Table> {
    if stack == [] then []
    else (if MayHavePrefix(stack[0].filter, e, prefixed) then [stack[0]] else []) + NotRuledOut(stack[1..], e, prefixed)
  }

  /** A seek for the prefix finds what a scan of everything finds under it,
      in every stack of tables any extractors built. */
  ghost predicate SeekIsTheScan(e: Extractor, names: Names, prefixed: Bytes) {
    forall stack, key | AllHonest(stack, names) && prefixed <= key ::
      Look(NotRuledOut(stack, e, prefixed), key) == Look(stack, key)
  }

  /** Every key under the prefix has the entry the seek asks for. */
  ghost predicate SoundFor(e: Extractor, prefix: Bytes) {
    e.query(prefix).Some? ==> forall key | prefix <= key :: e.extract(key) == e.query(prefix)
  }

  // -------------------------------------------------------------- results

  lemma CallersOfLonger(prefixed: Bytes, key: Bytes)
    requires prefixed <= key && Callers(prefixed).Some?
    ensures Callers(key).Some? && Callers(key).value.0 == Callers(prefixed).value.0
    ensures Callers(prefixed).value.1 <= Callers(key).value.1
  {
    assert prefixed[..CF_PREFIX_LEN] == key[..CF_PREFIX_LEN];
  }

  /** A sound probe rules out no table with a key under the prefix, a deletion
      included. */
  lemma NeverRuledOutForAKey(t: Table, e: Extractor, names: Names, prefixed: Bytes, key: Bytes)
    requires Honest(t, names) && prefixed <= key && key in t.rows
    requires names(e.name) == e.extract
    requires Callers(prefixed).Some? ==> SoundFor(e, Callers(prefixed).value.1)
    ensures MayHavePrefix(t.filter, e, prefixed)
  {
    if t.filter.Named? && t.filter.builtBy == e.name && ProbeOf(e, prefixed).Some? {
      CallersOfLonger(prefixed, key);
      assert EntryOf(names(t.filter.builtBy), key) == ProbeOf(e, prefixed);
    }
  }

  lemma {:induction false} SoundSeekIsTheScan(stack: seq<Table>, e: Extractor, names: Names, prefixed: Bytes, key: Bytes)
    requires AllHonest(stack, names) && prefixed <= key
    requires names(e.name) == e.extract
    requires Callers(prefixed).Some? ==> SoundFor(e, Callers(prefixed).value.1)
    ensures Look(NotRuledOut(stack, e, prefixed), key) == Look(stack, key)
  {
    if stack != [] {
      assert AllHonest(stack[1..], names);
      SoundSeekIsTheScan(stack[1..], e, names, prefixed, key);
      var rest := NotRuledOut(stack[1..], e, prefixed);
      if MayHavePrefix(stack[0].filter, e, prefixed) {
        assert ([stack[0]] + rest)[1..] == rest;
      } else {
        assert [] + rest == rest;
        if key in stack[0].rows {
          NeverRuledOutForAKey(stack[0], e, names, prefixed, key);
          assert false;
        }
      }
    }
  }

  /** The one-row table whose exact bloom rules it out for a prefix its key is
      under. */
  lemma UnsoundSeekMissesAKey(e: Extractor, names: Names, prefixed: Bytes, callersKey: Bytes) returns (stack: seq<Table>)
    requires names(e.name) == e.extract && Callers(prefixed).Some?
    requires e.query(Callers(prefixed).value.1).Some? && Callers(prefixed).value.1 <= callersKey
    requires e.extract(callersKey) != e.query(Callers(prefixed).value.1)
    ensures var key := Callers(prefixed).value.0 + callersKey;
      && AllHonest(stack, names) && prefixed <= key
      && Look(stack, key).Some? && Look(NotRuledOut(stack, e, prefixed), key).None?
    ensures !SeekIsTheScan(e, names, prefixed)
  {
    var family := Callers(prefixed).value.0;
    var key := family + callersKey;
    assert prefixed == family + Callers(prefixed).value.1 && prefixed <= key;
    assert key[..CF_PREFIX_LEN] == family && key[CF_PREFIX_LEN..] == callersKey;
    var entry := EntryOf(e.extract, key);
    var t := Table(map[key := Some([])], Named(e.name, probe => Some(probe) == entry));
    stack := [t];
    assert AllHonest(stack, names);
    TaggedApart(family, e.extract(callersKey), e.query(Callers(prefixed).value.1));
    assert !MayHavePrefix(t.filter, e, prefixed);
    assert stack[1..] == [];
    assert NotRuledOut(stack, e, prefixed) == [];
    assert Look(NotRuledOut(stack, e, prefixed), key) == None;
    assert Look(stack, key) == t.rows[key] == Some([]);
  }

  lemma TaggedApart(family: Bytes, a: Option<Bytes>, b: Option<Bytes>)
    requires a != b
    ensures Tagged(family, a) != Tagged(family, b)
  {
    if a.Some? && b.Some? {
      assert (family + a.value)[|family|..] == a.value && (family + b.value)[|family|..] == b.value;
    }
  }

  /** Exactly when a prefix seek may use the blooms: over every stack of tables
      of every form and extractor it returns what a full scan returns if and
      only if every key under the caller's prefix extracts to what the seek
      asks for. A seek over the database's own entries asks nothing. */
  lemma SeekIsTheScanIff(e: Extractor, names: Names, prefixed: Bytes)
    requires names(e.name) == e.extract
    ensures SeekIsTheScan(e, names, prefixed) <==>
      (Callers(prefixed).Some? ==> SoundFor(e, Callers(prefixed).value.1))
  {
    if Callers(prefixed).Some? && !SoundFor(e, Callers(prefixed).value.1) {
      var prefix := Callers(prefixed).value.1;
      var key :| prefix <= key && e.extract(key) != e.query(prefix);
      var stack := UnsoundSeekMissesAKey(e, names, prefixed, key);
    } else {
      forall stack, key | AllHonest(stack, names) && prefixed <= key
        ensures Look(NotRuledOut(stack, e, prefixed), key) == Look(stack, key)
      {
        SoundSeekIsTheScan(stack, e, names, prefixed, key);
      }
    }
  }

  // ----------------------------------------------------------- extractors

  function FixedLengthName(width: nat): string {
    "FixedLengthPrefix(" + BackupNames.Printed(width, 10) + ")"
  }

  function FixedLengthExtract(width: nat, key: Bytes): Option<Bytes> {
    if |key| >= width then Some(key[..width]) else None
  }

  function FixedLengthPrefix(width: nat): Extractor {
    Extractor(FixedLengthName(width), key => FixedLengthExtract(width, key), key => FixedLengthExtract(width, key))
  }

  /** It extracts exactly the first `width` bytes of each key that has them. */
  lemma FixedLengthExtractsThePrefix(width: nat, key: Bytes, prefix: Bytes)
    ensures FixedLengthPrefix(width).extract(key) == Some(prefix) <==> prefix <= key && |prefix| == width
  {
    if prefix <= key && |prefix| == width {
      assert key[..width] == prefix;
    }
  }

  lemma FixedLengthIsSound(width: nat, prefix: Bytes)
    ensures SoundFor(FixedLengthPrefix(width), prefix)
  {
    forall key | prefix <= key && FixedLengthExtract(width, prefix).Some?
      ensures FixedLengthExtract(width, key) == FixedLengthExtract(width, prefix)
    {
      assert prefix[..width] == key[..width];
    }
  }

  /** So a prefix seek under it agrees with the scan, at every width, for every
      prefix of every family. */
  lemma FixedLengthSeekIsTheScan(width: nat, names: Names, prefixed: Bytes)
    requires names(FixedLengthName(width)) == FixedLengthPrefix(width).extract
    ensures SeekIsTheScan(FixedLengthPrefix(width), names, prefixed)
  {
    if Callers(prefixed).Some? {
      FixedLengthIsSound(width, Callers(prefixed).value.1);
    }
    SeekIsTheScanIff(FixedLengthPrefix(width), names, prefixed);
  }

  /** The width is part of the name, so tables of another width are not asked. */
  lemma FixedLengthNamesAreOneToOne(a: nat, b: nat)
    ensures FixedLengthName(a) == FixedLengthName(b) <==> a == b
  {
    BackupNames.PrintedRoundTrip(a, 10);
    BackupNames.PrintedRoundTrip(b, 10);
    var head := "FixedLengthPrefix(";
    if FixedLengthName(a) == FixedLengthName(b) {
      assert BackupNames.Printed(a, 10) == FixedLengthName(a)[|head|..|FixedLengthName(a)| - 1];
      assert BackupNames.Printed(b, 10) == FixedLengthName(b)[|head|..|FixedLengthName(b)| - 1];
    }
  }

  /** What the default query needs of an extractor: a prefix that is its own
      extraction is the extraction of every key under it. */
  ghost predicate Stable(extract: Bytes -> Option<Bytes>) {
    forall prefix, key | prefix <= key && extract(prefix) == Some(prefix) :: extract(key) == Some(prefix)
  }

  /** The default query is safe for exactly the stable extractors. */
  lemma DefaultQueryIsSafeIff(name: string, extract: Bytes -> Option<Bytes>, names: Names)
    requires names(name) == extract
    ensures (forall family: U32, prefix: Bytes | family != META_CF_ID ::
               SeekIsTheScan(WithDefaultQuery(name, extract), names, PrefixKey(family, prefix)))
      <==> Stable(extract)
  {
    var e := WithDefaultQuery(name, extract);
    forall family: U32, prefix: Bytes | family != META_CF_ID
      ensures SeekIsTheScan(e, names, PrefixKey(family, prefix)) <==> SoundFor(e, prefix)
    {
      CallersOfPrefixKey(family, prefix);
      SeekIsTheScanIff(e, names, PrefixKey(family, prefix));
    }
    if !Stable(extract) {
      var prefix, key :| prefix <= key && extract(prefix) == Some(prefix) && extract(key) != Some(prefix);
      assert e.query(prefix) == Some(prefix) && e.extract(key) != e.query(prefix);
      assert !SoundFor(e, prefix);
      assert !SeekIsTheScan(e, names, PrefixKey(DEFAULT_CF_ID, prefix));
    } else {
      assert forall prefix :: SoundFor(e, prefix);
    }
  }

  lemma CallersOfPrefixKey(family: U32, key: Bytes)
    requires family != META_CF_ID
    ensures Callers(PrefixKey(family, key)) == Some((BigEndian(family), key))
  {
    BigEndianRoundTrip(family);
    assert PrefixKey(family, key)[..CF_PREFIX_LEN] == BigEndian(family);
    assert PrefixKey(family, key)[CF_PREFIX_LEN..] == key;
  }

  /** Through the first colon. */
  function ThroughColon(key: Bytes): Option<Bytes> {
    if key == [] then None
    else if key[0] == COLON then Some([COLON])
    else var rest := ThroughColon(key[1..]); if rest.Some? then Some([key[0]] + rest.value) else None
  }

  /** Through the last colon. */
  function ThroughLastColon(key: Bytes): Option<Bytes> {
    if key == [] then None
    else if key[|key| - 1] == COLON then Some(key)
    else ThroughLastColon(key[..|key| - 1])
  }

  /** It extracts what ends with the first colon of each key that has one. */
  lemma {:induction false} ThroughColonExtractsThePrefix(key: Bytes, prefix: Bytes)
    ensures ThroughColon(key) == Some(prefix) <==>
      prefix != [] && prefix <= key && prefix[|prefix| - 1] == COLON && COLON !in prefix[..|prefix| - 1]
  {
    if key != [] {
      if key[0] == COLON {
        if prefix <= key && |prefix| > 1 {
          assert prefix[..|prefix| - 1][0] == COLON;
        } else if prefix <= key && |prefix| == 1 {
          assert prefix == [COLON];
        }
      } else {
        if |prefix| > 1 && prefix <= key {
          assert prefix == [key[0]] + prefix[1..] && prefix[1..] <= key[1..];
          assert prefix[..|prefix| - 1] == [key[0]] + prefix[1..][..|prefix| - 2];
        }
        ThroughColonExtractsThePrefix(key[1..], if prefix == [] then [] else prefix[1..]);
        var rest := ThroughColon(key[1..]);
        if rest.Some? {
          assert ([key[0]] + rest.value)[1..] == rest.value;
          ThroughColonExtractsThePrefix(key[1..], rest.value);
          assert rest.value != [];
        }
      }
    }
  }

  lemma {:induction false} ThroughColonIsStable(prefix: Bytes, key: Bytes)
    requires prefix <= key && ThroughColon(prefix) == Some(prefix)
    ensures ThroughColon(key) == Some(prefix)
  {
    if prefix[0] != COLON {
      var rest := ThroughColon(prefix[1..]).value;
      assert ([prefix[0]] + rest)[1..] == rest;
      ThroughColonIsStable(prefix[1..], key[1..]);
      assert [key[0]] + prefix[1..] == prefix;
    } else {
      assert prefix == [COLON];
    }
  }

  lemma FirstColonIsSafe()
    ensures Stable(ThroughColon)
  {
    forall prefix, key | prefix <= key && ThroughColon(prefix) == Some(prefix) ensures ThroughColon(key) == Some(prefix) {
      ThroughColonIsStable(prefix, key);
    }
  }

  /** An extractor that keeps the default query and loses rows to it: the key
      `:a:` is under the prefix `:` and is not filed there. */
  lemma LastColonIsNot()
    ensures !Stable(ThroughLastColon)
  {
    var prefix, key: Bytes := [COLON], [COLON, 0x61, COLON];
    assert ThroughLastColon(prefix) == Some(prefix) && ThroughLastColon(key) == Some(key);
    assert prefix <= key;
  }

  /** In every family a seek through the first colon, with the default query,
      agrees with the scan. */
  lemma FirstColonSeekIsTheScan(name: string, names: Names, family: U32, prefix: Bytes)
    requires names(name) == ThroughColon && family != META_CF_ID
    ensures SeekIsTheScan(WithDefaultQuery(name, ThroughColon), names, PrefixKey(family, prefix))
  {
    FirstColonIsSafe();
    DefaultQueryIsSafeIff(name, ThroughColon, names);
  }

  /** In every family there is a one-table database in which a seek for `:`
      through the last colon misses the row `:a:`. */
  lemma LastColonSeekMissesARow(name: string, names: Names, family: U32) returns (stack: seq<Table>)
    requires names(name) == ThroughLastColon && family != META_CF_ID
    ensures var e, key := WithDefaultQuery(name, ThroughLastColon), PrefixKey(family, [COLON, 0x61, COLON]);
      && AllHonest(stack, names) && PrefixKey(family, [COLON]) <= key
      && Look(stack, key).Some? && Look(NotRuledOut(stack, e, PrefixKey(family, [COLON])), key).None?
      && !SeekIsTheScan(e, names, PrefixKey(family, [COLON]))
  {
    var prefix, row: Bytes := [COLON], [COLON, 0x61, COLON];
    var e := WithDefaultQuery(name, ThroughLastColon);
    assert ThroughLastColon(prefix) == Some(prefix) && ThroughLastColon(row) == Some(row);
    assert prefix <= row && e.query(prefix) == Some(prefix);
    CallersOfPrefixKey(family, prefix);
    stack := UnsoundSeekMissesAKey(e, names, PrefixKey(family, prefix), row);
    assert BigEndian(family) + row == PrefixKey(family, row);
  }
}
