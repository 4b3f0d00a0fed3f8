/** The part of the engine a checkpoint relies on: memtables that hold
    stretches of the write history, tables they are flushed to, and merges of
    tables that keep what a reader sees. */
module Lsm {
  import opened Words

  /** A committed write; `None` deletes. Its sequence number is its place in
      the history. */
  datatype Write = Write(key: Bytes, value: Option<Bytes>)

  /** What a table holds for a key. */
  datatype Cell = Cell(seqNo: nat, value: Option<Bytes>)
  type Table = map<Bytes, Cell>

  /** What a reader sees of `key` after the first `n` writes. */
  ghost function Visible(history: seq<Write>, n: nat, key: Bytes): Option<Bytes>
    requires n <= |history|
  {
    if n == 0 then None
    else if history[n - 1].key == key then history[n - 1].value
    else Visible(history, n - 1, key)
  }

  lemma {:induction false} LaterWritesChangeNoPrefix(history: seq<Write>, more: seq<Write>, n: nat, key: Bytes)
    requires n <= |history|
    ensures Visible(history + more, n, key) == Visible(history, n, key)
  {
    if n > 0 {
      LaterWritesChangeNoPrefix(history, more, n - 1, key);
    }
  }

  /** A memtable of the writes from `from` up to `end`, as a table. */
  ghost function Flushed(history: seq<Write>, from: nat, end: nat): Table
    requires from <= end <= |history|
    decreases end
  {
    if from == end then map[]
    else Flushed(history, from, end - 1)[history[end - 1].key := Cell(end - 1, history[end - 1].value)]
  }

  lemma {:induction false} FlushedHoldsTheStretch(history: seq<Write>, from: nat, end: nat, key: Bytes)
    requires from <= end <= |history|
    ensures key in Flushed(history, from, end) ==>
      var c := Flushed(history, from, end)[key];
      from <= c.seqNo < end && history[c.seqNo] == Write(key, c.value) && Visible(history, end, key) == c.value
    ensures key !in Flushed(history, from, end) ==> Visible(history, end, key) == Visible(history, from, key)
    decreases end
  {
    if from < end {
      FlushedHoldsTheStretch(history, from, end - 1, key);
    }
  }

  // -------------------------------------------------------------- reading

  ghost predicate Has(tables: map<nat, Table>, ids: set<nat>, id: nat, key: Bytes) {
    id in ids && id in tables && key in tables[id]
  }

  /** The tables `ids` have no cell for `key` above this one. */
  ghost predicate NoneAbove(tables: map<nat, Table>, ids: set<nat>, key: Bytes, seqNo: nat) {
    forall id | Has(tables, ids, id, key) :: tables[id][key].seqNo <= seqNo
  }

  /** A reader of the tables `ids` sees `value` for `key`: the newest cell's,
      or nothing when no table has one. */
  ghost predicate Reads(tables: map<nat, Table>, ids: set<nat>, key: Bytes, value: Option<Bytes>) {
    || (value.None? && forall id :: !Has(tables, ids, id, key))
    || exists id :: Has(tables, ids, id, key) && tables[id][key].value == value
                    && NoneAbove(tables, ids, key, tables[id][key].seqNo)
  }

  /** Every cell is a write of the first `n`. */
  ghost predicate Written(tables: map<nat, Table>, ids: set<nat>, history: seq<Write>, n: nat) {
    n <= |history| && forall id, key | Has(tables, ids, id, key) ::
      tables[id][key].seqNo < n && history[tables[id][key].seqNo] == Write(key, tables[id][key].value)
  }

  /** The tables `ids` read as the first `n` writes do. */
  ghost predicate ReadsAs(tables: map<nat, Table>, ids: set<nat>, history: seq<Write>, n: nat) {
    n <= |history| && forall key :: Reads(tables, ids, key, Visible(history, n, key))
  }

  lemma ReadsOnlyTheTables(tables: map<nat, Table>, others: map<nat, Table>, ids: set<nat>, history: seq<Write>, n: nat)
    requires ReadsAs(tables, ids, history, n) && ids <= tables.Keys
    requires forall id | id in ids :: id in others && others[id] == tables[id]
    ensures ReadsAs(others, ids, history, n)
  {
    forall key ensures Reads(others, ids, key, Visible(history, n, key)) {
      SameReading(tables, others, ids, key, Visible(history, n, key));
    }
  }

  lemma SameReading(tables: map<nat, Table>, others: map<nat, Table>, ids: set<nat>, key: Bytes, value: Option<Bytes>)
    requires Reads(tables, ids, key, value) && ids <= tables.Keys
    requires forall id | id in ids :: id in others && others[id] == tables[id]
    ensures Reads(others, ids, key, value)
  {
    assert forall id :: Has(others, ids, id, key) <==> Has(tables, ids, id, key);
    if id :| Has(tables, ids, id, key) && tables[id][key].value == value && NoneAbove(tables, ids, key, tables[id][key].seqNo) {
      assert NoneAbove(others, ids, key, others[id][key].seqNo);
    }
  }

  lemma ReadsAsGrows(tables: map<nat, Table>, ids: set<nat>, history: seq<Write>, more: seq<Write>, n: nat)
    requires ReadsAs(tables, ids, history, n)
    ensures ReadsAs(tables, ids, history + more, n)
  {
    forall key ensures Reads(tables, ids, key, Visible(history + more, n, key)) {
      LaterWritesChangeNoPrefix(history, more, n, key);
    }
  }

  /** Flushing the stretch after the first `n` writes brings the tables up to
      its end. */
  lemma FlushExtendsThePrefix(tables: map<nat, Table>, ids: set<nat>, history: seq<Write>, n: nat, end: nat, id: nat)
    requires Written(tables, ids, history, n) && ReadsAs(tables, ids, history, n) && ids <= tables.Keys
    requires n <= end <= |history| && id !in tables
    ensures var after := tables[id := Flushed(history, n, end)];
      Written(after, ids + {id}, history, end) && ReadsAs(after, ids + {id}, history, end)
  {
    var after := tables[id := Flushed(history, n, end)];
    forall i, key | Has(after, ids + {id}, i, key)
      ensures after[i][key].seqNo < end && history[after[i][key].seqNo] == Write(key, after[i][key].value)
    {
      FlushedHoldsTheStretch(history, n, end, key);
      assert i != id ==> Has(tables, ids, i, key);
    }
    forall key ensures Reads(after, ids + {id}, key, Visible(history, end, key)) {
      FlushReads(tables, ids, history, n, end, id, key);
    }
  }

  lemma FlushReads(tables: map<nat, Table>, ids: set<nat>, history: seq<Write>, n: nat, end: nat, id: nat, key: Bytes)
    requires Written(tables, ids, history, n) && ReadsAs(tables, ids, history, n) && ids <= tables.Keys
    requires n <= end <= |history| && id !in tables
    ensures Reads(tables[id := Flushed(history, n, end)], ids + {id}, key, Visible(history, end, key))
  {
    var table := Flushed(history, n, end);
    var after := tables[id := table];
    FlushedHoldsTheStretch(history, n, end, key);
    assert forall i | i != id :: Has(after, ids + {id}, i, key) <==> Has(tables, ids, i, key);
    if key in table {
      assert Has(after, ids + {id}, id, key);
      assert NoneAbove(after, ids + {id}, key, table[key].seqNo);
    } else if i :| Has(tables, ids, i, key) && tables[i][key].value == Visible(history, n, key)
                   && NoneAbove(tables, ids, key, tables[i][key].seqNo) {
      assert Has(after, ids + {id}, i, key) && NoneAbove(after, ids + {id}, key, after[i][key].seqNo);
    }
  }

  // -------------------------------------------------------------- merging

  /** A merge may drop a key: its newest cell is a deletion, and no table the
      merge leaves alone has the key. */
  ghost predicate Droppable(tables: map<nat, Table>, ids: set<nat>, inputs: set<nat>, key: Bytes) {
    && (forall id :: !Has(tables, ids - inputs, id, key))
    && exists id :: Has(tables, inputs, id, key) && tables[id][key].value.None?
                    && NoneAbove(tables, inputs, key, tables[id][key].seqNo)
  }

  ghost predicate Kept(outputs: map<nat, Table>, key: Bytes, seqNo: nat) {
    exists o :: o in outputs && key in outputs[o] && outputs[o][key].seqNo >= seqNo
  }

  ghost predicate Carried(tables: map<nat, Table>, inputs: set<nat>, key: Bytes, cell: Cell) {
    exists i :: Has(tables, inputs, i, key) && tables[i][key] == cell
  }

  /** What a merge of `inputs` writes: cells of the inputs only, the newest of
      every key it does not drop among them, and nothing of a key it drops. */
  ghost predicate Merges(tables: map<nat, Table>, ids: set<nat>, inputs: set<nat>, outputs: map<nat, Table>) {
    && (forall o, key | o in outputs && key in outputs[o] :: Carried(tables, inputs, key, outputs[o][key]))
    && (forall i, key | Has(tables, inputs, i, key) ::
          Kept(outputs, key, tables[i][key].seqNo)
          || (Droppable(tables, ids, inputs, key) && forall o | o in outputs :: key !in outputs[o]))
  }

  /** A merge changes no reading. */
  lemma MergeKeepsReadings(tables: map<nat, Table>, ids: set<nat>, inputs: set<nat>, outputs: map<nat, Table>,
                           history: seq<Write>, n: nat)
    requires Written(tables, ids, history, n) && ReadsAs(tables, ids, history, n)
    requires inputs <= ids <= tables.Keys && outputs.Keys !! tables.Keys
    requires Merges(tables, ids, inputs, outputs)
    ensures Written(tables + outputs, ids - inputs + outputs.Keys, history, n)
    ensures ReadsAs(tables + outputs, ids - inputs + outputs.Keys, history, n)
  {
    var after, now := tables + outputs, ids - inputs + outputs.Keys;
    forall id, key | Has(after, now, id, key)
      ensures after[id][key].seqNo < n && history[after[id][key].seqNo] == Write(key, after[id][key].value)
    {
      CellsComeFromBefore(tables, ids, inputs, outputs, id, key);
    }
    forall key ensures Reads(after, now, key, Visible(history, n, key)) {
      MergeReads(tables, ids, inputs, outputs, history, n, key, Visible(history, n, key));
    }
  }

  lemma CellsComeFromBefore(tables: map<nat, Table>, ids: set<nat>, inputs: set<nat>, outputs: map<nat, Table>,
                            id: nat, key: Bytes)
    requires inputs <= ids <= tables.Keys && outputs.Keys !! tables.Keys
    requires Merges(tables, ids, inputs, outputs)
    requires Has(tables + outputs, ids - inputs + outputs.Keys, id, key)
    ensures exists i :: Has(tables, ids, i, key) && tables[i][key] == (tables + outputs)[id][key]
  {
    if id in outputs {
      assert Carried(tables, inputs, key, outputs[id][key]);
      var i :| Has(tables, inputs, i, key) && tables[i][key] == outputs[id][key];
      assert Has(tables, ids, i, key);
    } else {
      assert Has(tables, ids, id, key);
    }
  }

  lemma MergeReads(tables: map<nat, Table>, ids: set<nat>, inputs: set<nat>, outputs: map<nat, Table>,
                   history: seq<Write>, n: nat, key: Bytes, value: Option<Bytes>)
    requires Written(tables, ids, history, n) && Reads(tables, ids, key, value)
    requires inputs <= ids <= tables.Keys && outputs.Keys !! tables.Keys
    requires Merges(tables, ids, inputs, outputs)
    ensures Reads(tables + outputs, ids - inputs + outputs.Keys, key, value)
  {
    var after, now := tables + outputs, ids - inputs + outputs.Keys;
    if forall id :: !Has(tables, ids, id, key) {
      forall id ensures !Has(after, now, id, key) {
        if Has(after, now, id, key) {
          CellsComeFromBefore(tables, ids, inputs, outputs, id, key);
        }
      }
    } else {
      var top :| Has(tables, ids, top, key) && tables[top][key].value == value
                 && NoneAbove(tables, ids, key, tables[top][key].seqNo);
      forall id | Has(after, now, id, key) ensures after[id][key].seqNo <= tables[top][key].seqNo {
        CellsComeFromBefore(tables, ids, inputs, outputs, id, key);
      }
      assert NoneAbove(after, now, key, tables[top][key].seqNo);
      if top !in inputs {
        assert Has(after, now, top, key) && after[top][key] == tables[top][key];
      } else if Kept(outputs, key, tables[top][key].seqNo) {
        var o :| o in outputs && key in outputs[o] && outputs[o][key].seqNo >= tables[top][key].seqNo;
        assert Carried(tables, inputs, key, outputs[o][key]);
        var i :| Has(tables, inputs, i, key) && tables[i][key] == outputs[o][key];
        TopIsKept(tables, ids, history, n, key, top, i);
        assert Has(after, now, o, key) && after[o][key] == tables[top][key];
      } else {
        DroppedReadsAsNothing(tables, ids, inputs, outputs, history, n, key, top);
      }
    }
  }

  lemma TopIsKept(tables: map<nat, Table>, ids: set<nat>, history: seq<Write>, n: nat, key: Bytes,
                  top: nat, i: nat)
    requires Written(tables, ids, history, n)
    requires Has(tables, ids, top, key) && NoneAbove(tables, ids, key, tables[top][key].seqNo)
    requires Has(tables, ids, i, key) && tables[i][key].seqNo >= tables[top][key].seqNo
    ensures tables[i][key] == tables[top][key]
  {
  }

  lemma DroppedReadsAsNothing(tables: map<nat, Table>, ids: set<nat>, inputs: set<nat>, outputs: map<nat, Table>,
                              history: seq<Write>, n: nat, key: Bytes, top: nat)
    requires Written(tables, ids, history, n)
    requires inputs <= ids <= tables.Keys && outputs.Keys !! tables.Keys
    requires Merges(tables, ids, inputs, outputs)
    requires Has(tables, inputs, top, key) && NoneAbove(tables, ids, key, tables[top][key].seqNo)
    requires !Kept(outputs, key, tables[top][key].seqNo)
    ensures tables[top][key].value.None?
    ensures forall id :: !Has(tables + outputs, ids - inputs + outputs.Keys, id, key)
  {
    assert Droppable(tables, ids, inputs, key);
    var id :| Has(tables, inputs, id, key) && tables[id][key].value.None?
              && NoneAbove(tables, inputs, key, tables[id][key].seqNo);
    assert Has(tables, ids, id, key) && Has(tables, ids, top, key);
    forall i ensures !Has(tables + outputs, ids - inputs + outputs.Keys, i, key) {
      assert !Has(tables, ids - inputs, i, key);
    }
  }
}
