/** Grouped aggregation under a memory budget: once over budget the groups in memory
    are frozen and rows with new keys are spilled to hash partitions, which are
    aggregated on their own later (src/query/executor/GroupedAggregator.cpp). */
module Spill {
  import opened Wrappers
  import opened Sequences
  import opened AggregateSpec
  import opened KeyedGroups

  const MAX_DEPTH: nat := 4

  function Flat(batches: seq<seq<KeyedRow>>): seq<KeyedRow> {
    if batches == [] then [] else Flat(batches[..|batches|-1]) + batches[|batches|-1]
  }

  /** The first batch that holds a row; the empty one when none does. */
  function First(batches: seq<seq<KeyedRow>>): seq<KeyedRow> {
    if batches == [] then []
    else if First(batches[..|batches|-1]) != [] then First(batches[..|batches|-1])
    else batches[|batches|-1]
  }

  lemma FlatMore(batches: seq<seq<KeyedRow>>, batch: seq<KeyedRow>, key: string)
    ensures RowsOf(Flat(batches + [batch]), key) == RowsOf(Flat(batches), key) + RowsOf(batch, key)
    ensures RowsOf(Flat(batches), key) + [] == RowsOf(Flat(batches), key)
  {
    assert (batches + [batch])[..|batches|] == batches;
    RowsOfConcat(Flat(batches), batch, key);
  }

  /** Whether an emitted row is right for the rows of its key. */
  type Judge = (Cell, seq<KeyedRow>) -> bool

  /** What grouped evaluation must give: every key of the input in exactly one
      emitted row, which is right for all the rows of that key. */
  ghost predicate Grouped(judge: Judge, cells: seq<Cell>, input: seq<KeyedRow>) {
    && (forall i, j :: 0 <= i < j < |cells| ==> cells[i].key != cells[j].key)
    && (forall i :: 0 <= i < |cells| ==> RowsOf(input, cells[i].key) != [] && judge(cells[i], RowsOf(input, cells[i].key)))
    && forall key :: RowsOf(input, key) != [] ==> HasCell(cells, key)
  }

  ghost predicate HasCell(cells: seq<Cell>, key: string) { exists i :: 0 <= i < |cells| && cells[i].key == key }

  /** Every batch in the spill files holds a row. */
  predicate Filled(writers: seq<seq<seq<KeyedRow>>>) { forall i :: 0 <= i < |writers| ==> AllFilled(writers[i]) }

  predicate AllFilled(batches: seq<seq<KeyedRow>>) { forall b :: 0 <= b < |batches| ==> batches[b] != [] }

  /** The partition of a key; the depth is mixed into the hash. */
  type Hash = (string, nat) -> nat

  function PartitionOf(hash: Hash, depth: nat, count: nat, key: string): nat
    requires count > 0
  {
    hash(key, depth) % count
  }

  /** What a partition holds of a key: all of its rows in the one it hashes to,
      unless it has a group in memory. */
  ghost predicate Split(hash: Hash, depth: nat, count: nat, memory: seq<KeyedRow>, writers: seq<seq<seq<KeyedRow>>>, input: seq<KeyedRow>, key: string)
    requires count > 0
  {
    if RowsOf(memory, key) != [] then
      RowsOf(memory, key) == RowsOf(input, key) && forall i :: 0 <= i < |writers| ==> RowsOf(Flat(writers[i]), key) == []
    else if writers == [] then RowsOf(input, key) == []
    else
      forall i :: 0 <= i < |writers| ==>
        RowsOf(Flat(writers[i]), key) == if i == PartitionOf(hash, depth, count, key) then RowsOf(input, key) else []
  }

  ghost predicate AllSplit(hash: Hash, depth: nat, count: nat, memory: seq<KeyedRow>, writers: seq<seq<seq<KeyedRow>>>, input: seq<KeyedRow>)
    requires count > 0
  {
    forall key :: Split(hash, depth, count, memory, writers, input, key)
  }

  /** The rows of a batch that go to one partition. */
  ghost predicate Selected(hash: Hash, depth: nat, count: nat, rows: seq<KeyedRow>, selected: seq<seq<KeyedRow>>)
    requires count > 0
  {
    && |selected| == count
    && forall key, i :: 0 <= i < count ==>
         RowsOf(selected[i], key) == if i == PartitionOf(hash, depth, count, key) then RowsOf(rows, key) else []
  }

  /** Rows sorted by whether their key has a group in memory. */
  ghost predicate Classified(memory: seq<KeyedRow>, rows: seq<KeyedRow>, hits: seq<KeyedRow>, misses: seq<KeyedRow>) {
    forall key :: ClassifiedKey(memory, rows, hits, misses, key)
  }

  ghost predicate ClassifiedKey(memory: seq<KeyedRow>, rows: seq<KeyedRow>, hits: seq<KeyedRow>, misses: seq<KeyedRow>, key: string) {
    if RowsOf(memory, key) != [] then RowsOf(hits, key) == RowsOf(rows, key) && RowsOf(misses, key) == []
    else RowsOf(hits, key) == [] && RowsOf(misses, key) == RowsOf(rows, key)
  }

  lemma RowsOfOneMore(rows: seq<KeyedRow>, r: KeyedRow, key: string)
    ensures RowsOf(rows + [r], key) == if r.key == key then RowsOf(rows, key) + [r] else RowsOf(rows, key)
  {
    assert (rows + [r])[..|rows|] == rows && RowsOf(rows, key) + [] == RowsOf(rows, key);
  }

  lemma ClassifyRow(memory: seq<KeyedRow>, rows: seq<KeyedRow>, hits: seq<KeyedRow>, misses: seq<KeyedRow>, r: KeyedRow)
    requires Classified(memory, rows, hits, misses)
    ensures if RowsOf(memory, r.key) != [] then Classified(memory, rows + [r], hits + [r], misses)
            else Classified(memory, rows + [r], hits, misses + [r])
  {
    forall key
      ensures if RowsOf(memory, r.key) != [] then ClassifiedKey(memory, rows + [r], hits + [r], misses, key)
              else ClassifiedKey(memory, rows + [r], hits, misses + [r], key)
    {
      assert ClassifiedKey(memory, rows, hits, misses, key);
      RowsOfOneMore(rows, r, key);
      RowsOfOneMore(hits, r, key);
      RowsOfOneMore(misses, r, key);
    }
  }

  /** The spill files after the rows of some batch were appended to their partitions. */
  ghost predicate Appended(hash: Hash, depth: nat, count: nat, before: seq<seq<seq<KeyedRow>>>, after: seq<seq<seq<KeyedRow>>>, rows: seq<KeyedRow>, key: string)
    requires count > 0 && (before == [] || |before| == count) && |after| == count
  {
    forall i :: 0 <= i < count ==>
      RowsOf(Flat(after[i]), key) == (if before == [] then [] else RowsOf(Flat(before[i]), key)) +
                                     (if i == PartitionOf(hash, depth, count, key) then RowsOf(rows, key) else [])
  }

  lemma AppendedOne(start: seq<seq<KeyedRow>>, selected: seq<KeyedRow>, key: string)
    ensures RowsOf(Flat(start + if selected != [] then [selected] else []), key) == RowsOf(Flat(start), key) + RowsOf(selected, key)
  {
    FlatMore(start, selected, key);
    assert start + [] == start;
  }

  lemma AppendedSelection(hash: Hash, depth: nat, count: nat, before: seq<seq<seq<KeyedRow>>>, after: seq<seq<seq<KeyedRow>>>,
                          rows: seq<KeyedRow>, selected: seq<seq<KeyedRow>>, key: string)
    requires count > 0 && (before == [] || |before| == count) && |after| == |selected| == count
    requires forall i :: 0 <= i < count ==> RowsOf(selected[i], key) == if i == PartitionOf(hash, depth, count, key) then RowsOf(rows, key) else []
    requires forall i :: 0 <= i < count ==>
               after[i] == (if before == [] then [] else before[i]) + if selected[i] != [] then [selected[i]] else []
    ensures Appended(hash, depth, count, before, after, rows, key)
  {
    forall i | 0 <= i < count
      ensures RowsOf(Flat(after[i]), key) == (if before == [] then [] else RowsOf(Flat(before[i]), key)) +
                                             (if i == PartitionOf(hash, depth, count, key) then RowsOf(rows, key) else [])
    {
      var start := if before == [] then [] else before[i];
      assert after[i] == start + if selected[i] != [] then [selected[i]] else [];
      AppendedOne(start, selected[i], key);
    }
  }

  lemma AppendedAll(hash: Hash, depth: nat, count: nat, before: seq<seq<seq<KeyedRow>>>, started: seq<seq<seq<KeyedRow>>>, after: seq<seq<seq<KeyedRow>>>,
                    rows: seq<KeyedRow>, selected: seq<seq<KeyedRow>>)
    requires count > 0 && Selected(hash, depth, count, rows, selected) && |started| == |after| == count
    requires if before == [] then forall i :: 0 <= i < count ==> started[i] == [] else started == before
    requires forall i :: 0 <= i < count ==> after[i] == if selected[i] != [] then started[i] + [selected[i]] else started[i]
    ensures forall key :: Appended(hash, depth, count, before, after, rows, key)
  {
    forall key ensures Appended(hash, depth, count, before, after, rows, key) {
      AppendedSelection(hash, depth, count, before, after, rows, selected, key);
    }
  }

  /** One more batch, for one key. */
  lemma SplitKept(hash: Hash, depth: nat, count: nat, memory: seq<KeyedRow>, before: seq<seq<seq<KeyedRow>>>, after: seq<seq<seq<KeyedRow>>>,
                  input: seq<KeyedRow>, batch: seq<KeyedRow>, hits: seq<KeyedRow>, misses: seq<KeyedRow>, key: string)
    requires count > 0 && (before == [] || |before| == count)
    requires Split(hash, depth, count, memory, before, input, key) && ClassifiedKey(memory, batch, hits, misses, key)
    requires if misses == [] then after == before else |after| == count && Appended(hash, depth, count, before, after, misses, key)
    ensures Split(hash, depth, count, memory + hits, after, input + batch, key)
  {
    RowsOfConcat(memory, hits, key);
    RowsOfConcat(input, batch, key);
    var m, n := RowsOf(memory, key), RowsOf(input, key);
    assert m + [] == m && n + [] == n;
    if misses != [] {
      forall i | 0 <= i < count
        ensures RowsOf(Flat(after[i]), key) ==
                if m == [] && i == PartitionOf(hash, depth, count, key) then n + RowsOf(batch, key) else []
      {
        if before != [] {
          var earlier := RowsOf(Flat(before[i]), key);
          assert earlier + [] == earlier;
        }
      }
    }
  }

  lemma UnspilledSplit(hash: Hash, depth: nat, count: nat, input: seq<KeyedRow>)
    requires count > 0
    ensures AllSplit(hash, depth, count, input, [], input)
  {
  }

  function Grown(memory: seq<KeyedRow>, hits: seq<KeyedRow>): seq<KeyedRow> { if hits == [] then memory else memory + hits }

  lemma SplitAllKept(hash: Hash, depth: nat, count: nat, memory: seq<KeyedRow>, before: seq<seq<seq<KeyedRow>>>, after: seq<seq<seq<KeyedRow>>>,
                     input: seq<KeyedRow>, batch: seq<KeyedRow>, hits: seq<KeyedRow>, misses: seq<KeyedRow>)
    requires count > 0 && (before == [] || |before| == count)
    requires AllSplit(hash, depth, count, memory, before, input) && Classified(memory, batch, hits, misses)
    requires if misses == [] then after == before
             else |after| == count && forall key :: Appended(hash, depth, count, before, after, misses, key)
    ensures AllSplit(hash, depth, count, Grown(memory, hits), after, input + batch)
  {
    assert Grown(memory, hits) == memory + hits;
    forall key ensures Split(hash, depth, count, memory + hits, after, input + batch, key) {
      assert Split(hash, depth, count, memory, before, input, key);
      assert ClassifiedKey(memory, batch, hits, misses, key);
      SplitKept(hash, depth, count, memory, before, after, input, batch, hits, misses, key);
    }
  }

  /** The groups in memory can be aggregated if the input can. */
  lemma HitsFit(calls: Calls, hash: Hash, depth: nat, count: nat, memory: seq<KeyedRow>, writers: seq<seq<seq<KeyedRow>>>,
                input: seq<KeyedRow>, batch: seq<KeyedRow>, hits: seq<KeyedRow>, misses: seq<KeyedRow>)
    requires count > 0 && AllSplit(hash, depth, count, memory, writers, input) && Classified(memory, batch, hits, misses)
    ensures AllFit(calls, input + batch) ==> AllFit(calls, Grown(memory, hits))
  {
    assert Grown(memory, hits) == memory + hits;
    if AllFit(calls, input + batch) {
      forall key ensures RowsFit(calls, RowsOf(memory + hits, key)) {
        assert Split(hash, depth, count, memory, writers, input, key) && ClassifiedKey(memory, batch, hits, misses, key);
        RowsOfConcat(memory, hits, key);
        RowsOfConcat(input, batch, key);
        assert RowsFit(calls, RowsOf(input + batch, key)) && RowsFit(calls, []);
      }
    }
  }

  class EvaluatedAggregator {
    const calls: Calls
    const hash: Hash
    const count: nat
    const depth: nat
    const groups: InMemoryGroups
    var frozen: bool
    /** The batches appended to each spill file; empty until the first spill. */
    var writers: seq<seq<seq<KeyedRow>>>
    ghost var input: seq<KeyedRow>

    ghost function Parts(): set<object> { {this} + groups.Parts() }

    ghost predicate Valid()
      reads Parts()
    {
      && count > 0 && groups.calls == calls && groups.Valid()
      && depth <= MAX_DEPTH && (frozen ==> depth < MAX_DEPTH)
      && (!frozen ==> writers == [] && groups.rows == input)
      && (writers == [] || |writers| == count) && Filled(writers)
      && AllSplit(hash, depth, count, groups.rows, writers, input)
    }

    constructor (calls: Calls, hash: Hash, spillPartitions: nat, depth: nat)
      requires depth <= MAX_DEPTH
      ensures Valid() && input == [] && !frozen && fresh(Parts())
      ensures this.calls == calls && this.hash == hash && this.depth == depth && count == Partitions(spillPartitions)
      ensures count >= 2 && (spillPartitions >= 2 ==> count == spillPartitions)
    {
      this.calls, this.hash, this.depth := calls, hash, depth;
      count := Partitions(spillPartitions);
      groups := new InMemoryGroups(calls);
      frozen, writers, input := false, [], [];
    }

    /** Folds a batch; `overBudget` is the outcome of the memory test after it. Fails
        only when some key's rows cannot be aggregated; frozen groups get no new key. */
    method Consume(batch: seq<KeyedRow>, overBudget: bool) returns (ok: bool)
      requires Valid()
      modifies Parts()
      ensures ok ==> Valid() && input == old(input) + batch
      ensures ok ==> frozen == (old(frozen) || (depth < MAX_DEPTH && overBudget))
      ensures ok ==> if old(frozen) then groups.keys == old(groups.keys) else groups.rows == input && old(groups.keys) <= groups.keys
      ensures !ok ==> !AllFit(calls, old(input) + batch)
    {
      if frozen {
        ok := ConsumeFrozen(batch);
      } else {
        ok := ConsumeUnfrozen(batch);
        if ok && depth < MAX_DEPTH && overBudget { frozen := true; }
      }
    }

    method ConsumeUnfrozen(batch: seq<KeyedRow>) returns (ok: bool)
      requires Valid() && !frozen
      modifies Parts()
      ensures ok ==> Valid() && !frozen && input == old(input) + batch && groups.rows == input && old(groups.keys) <= groups.keys
      ensures !ok ==> !AllFit(calls, old(input) + batch)
    {
      UnspilledSplit(hash, depth, count, input + batch);
      ok := groups.Consume(batch);
      if ok { input := input + batch; }
    }

    method ConsumeFrozen(batch: seq<KeyedRow>) returns (ok: bool)
      requires Valid() && frozen
      modifies Parts()
      ensures ok ==> Valid() && input == old(input) + batch && frozen && groups.keys == old(groups.keys)
      ensures !ok ==> !AllFit(calls, old(input) + batch)
    {
      ghost var before, memory := writers, groups.rows;
      ghost var hits;
      var misses;
      ok, hits, misses := FoldKnown(batch);
      if !ok {
        HitsFit(calls, hash, depth, count, memory, before, input, batch, hits, misses);
        return;
      }
      SpillMisses(misses);
      SplitAllKept(hash, depth, count, memory, before, writers, input, batch, hits, misses);
      input := input + batch;
    }

    /** Folds the rows of known keys; the others are still to be spilled. */
    method FoldKnown(batch: seq<KeyedRow>) returns (ok: bool, ghost hits: seq<KeyedRow>, misses: seq<KeyedRow>)
      requires groups.Valid()
      modifies groups.Parts()
      ensures Classified(old(groups.rows), batch, hits, misses)
      ensures ok ==> groups.Valid() && groups.rows == Grown(old(groups.rows), hits) && groups.keys == old(groups.keys)
      ensures !ok ==> !AllFit(groups.calls, Grown(old(groups.rows), hits))
    {
      var known;
      known, misses := Classify(batch);
      hits := known;
      ok := FoldHits(known);
    }

    method SpillMisses(misses: seq<KeyedRow>)
      requires count > 0 && (writers == [] || |writers| == count) && Filled(writers)
      modifies this`writers
      ensures (writers == [] || |writers| == count) && Filled(writers)
      ensures if misses == [] then writers == old(writers)
              else |writers| == count && forall key :: Appended(hash, depth, count, old(writers), writers, misses, key)
    {
      if misses != [] { SpillRows(misses); }
    }

    method FoldHits(hits: seq<KeyedRow>) returns (ok: bool)
      requires groups.Valid() && Known(hits, groups.keys)
      modifies groups.Parts()
      ensures ok ==> groups.Valid() && groups.rows == Grown(old(groups.rows), hits) && groups.keys == old(groups.keys)
      ensures !ok ==> !AllFit(groups.calls, Grown(old(groups.rows), hits))
    {
      ok := true;
      if hits != [] { ok := groups.Consume(hits); }
    }

    /** Rows whose key has a group in memory, and the others. */
    method Classify(batch: seq<KeyedRow>) returns (hits: seq<KeyedRow>, misses: seq<KeyedRow>)
      requires groups.Valid()
      ensures Classified(groups.rows, batch, hits, misses) && Known(hits, groups.keys)
    {
      hits, misses := [], [];
      for row := 0 to |batch|
        invariant Classified(groups.rows, batch[..row], hits, misses) && Known(hits, groups.keys)
      {
        var r := batch[row];
        assert batch[..row] + [r] == batch[..row + 1];
        ClassifyRow(groups.rows, batch[..row], hits, misses, r);
        IndexedKey(groups.index, groups.keys, r.key);
        if r.key in groups.index {
          hits := hits + [r];
        } else {
          misses := misses + [r];
        }
      }
      assert batch[..|batch|] == batch;
    }

    /** Appends rows to the spill files of their partitions. */
    method SpillRows(rows: seq<KeyedRow>)
      requires count > 0 && (writers == [] || |writers| == count) && Filled(writers)
      modifies this`writers
      ensures |writers| == count && Filled(writers)
      ensures forall key :: Appended(hash, depth, count, old(writers), writers, rows, key)
    {
      ghost var before := writers;
      if |writers| == 0 { writers := seq(count, _ => []); }
      ghost var started := writers;
      var selected := Select(rows);
      for index := 0 to count
        invariant |writers| == count && Filled(writers)
        invariant forall i :: 0 <= i < count ==> writers[i] == if i < index && selected[i] != [] then started[i] + [selected[i]] else started[i]
      {
        if selected[index] != [] { writers := writers[index := writers[index] + [selected[index]]]; }
      }
      AppendedAll(hash, depth, count, before, started, writers, rows, selected);
    }

    method Select(rows: seq<KeyedRow>) returns (selected: seq<seq<KeyedRow>>)
      requires count > 0
      ensures Selected(hash, depth, count, rows, selected)
    {
      selected := seq(count, _ => []);
      for row := 0 to |rows|
        invariant Selected(hash, depth, count, rows[..row], selected)
      {
        assert rows[..row + 1][..row] == rows[..row];
        var p := hash(rows[row].key, depth) % count;
        assert (selected[p] + [rows[row]])[..|selected[p]|] == selected[p];
        selected := selected[p := selected[p] + [rows[row]]];
      }
      assert rows[..|rows|] == rows;
    }
  }

  // ----- emitting ----------------------------------------------------------------------

  /** The emitted rows of the keys in memory and of those that hash below n. */
  ghost predicate Emitted(judge: Judge, hash: Hash, depth: nat, count: nat, memory: seq<KeyedRow>, input: seq<KeyedRow>, cells: seq<Cell>, n: nat)
    requires count > 0
  {
    && (forall i, j :: 0 <= i < j < |cells| ==> cells[i].key != cells[j].key)
    && (forall i :: 0 <= i < |cells| ==>
          && RowsOf(input, cells[i].key) != [] && judge(cells[i], RowsOf(input, cells[i].key))
          && Done(hash, depth, count, memory, cells[i].key, n))
    && forall key :: RowsOf(input, key) != [] && Done(hash, depth, count, memory, key, n) ==> HasCell(cells, key)
  }

  ghost predicate Done(hash: Hash, depth: nat, count: nat, memory: seq<KeyedRow>, key: string, n: nat)
    requires count > 0
  {
    RowsOf(memory, key) != [] || PartitionOf(hash, depth, count, key) < n
  }

  lemma HasCellConcat(a: seq<Cell>, b: seq<Cell>, key: string)
    ensures HasCell(a + b, key) <==> HasCell(a, key) || HasCell(b, key)
  {
    if i :| 0 <= i < |a| && a[i].key == key { assert (a + b)[i].key == key; }
    if i :| 0 <= i < |b| && b[i].key == key { assert (a + b)[|a| + i].key == key; }
  }

  /** What partition n holds of a key. */
  lemma InPartition(hash: Hash, depth: nat, count: nat, memory: seq<KeyedRow>, writers: seq<seq<seq<KeyedRow>>>, input: seq<KeyedRow>, n: nat, key: string)
    requires count > 0 && AllSplit(hash, depth, count, memory, writers, input) && n < |writers|
    ensures RowsOf(Flat(writers[n]), key) ==
            if RowsOf(memory, key) == [] && PartitionOf(hash, depth, count, key) == n then RowsOf(input, key) else []
  {
    assert Split(hash, depth, count, memory, writers, input, key);
  }

  lemma PartitionFits(calls: Calls, hash: Hash, depth: nat, count: nat, memory: seq<KeyedRow>, writers: seq<seq<seq<KeyedRow>>>, input: seq<KeyedRow>, n: nat)
    requires count > 0 && AllSplit(hash, depth, count, memory, writers, input) && n < |writers|
    ensures AllFit(calls, input) ==> AllFit(calls, Flat(writers[n]))
  {
    if AllFit(calls, input) {
      forall key ensures RowsFit(calls, RowsOf(Flat(writers[n]), key)) {
        InPartition(hash, depth, count, memory, writers, input, n, key);
        assert RowsFit(calls, RowsOf(input, key)) && RowsFit(calls, []);
      }
    }
  }

  /** The rows of one more partition. */
  lemma EmittedMore(judge: Judge, hash: Hash, depth: nat, count: nat, memory: seq<KeyedRow>, writers: seq<seq<seq<KeyedRow>>>,
                    input: seq<KeyedRow>, cells: seq<Cell>, n: nat, more: seq<Cell>)
    requires count > 0 && AllSplit(hash, depth, count, memory, writers, input) && n < |writers|
    requires Emitted(judge, hash, depth, count, memory, input, cells, n) && Grouped(judge, more, Flat(writers[n]))
    ensures Emitted(judge, hash, depth, count, memory, input, cells + more, n + 1)
  {
    forall key
      ensures RowsOf(Flat(writers[n]), key) ==
              if RowsOf(memory, key) == [] && PartitionOf(hash, depth, count, key) == n then RowsOf(input, key) else []
    {
      InPartition(hash, depth, count, memory, writers, input, n, key);
    }
    forall key | RowsOf(input, key) != [] && Done(hash, depth, count, memory, key, n + 1) ensures HasCell(cells + more, key) {
      HasCellConcat(cells, more, key);
    }
  }

  lemma EmittedAll(judge: Judge, hash: Hash, depth: nat, count: nat, memory: seq<KeyedRow>, writers: seq<seq<seq<KeyedRow>>>,
                   input: seq<KeyedRow>, cells: seq<Cell>)
    requires count > 0 && AllSplit(hash, depth, count, memory, writers, input) && (writers == [] || |writers| == count)
    requires Emitted(judge, hash, depth, count, memory, input, cells, |writers|)
    ensures Grouped(judge, cells, input)
  {
    forall key | RowsOf(input, key) != [] ensures HasCell(cells, key) {
      assert Split(hash, depth, count, memory, writers, input, key);
    }
  }

  lemma EmittedMemory(judge: Judge, hash: Hash, depth: nat, count: nat, memory: seq<KeyedRow>, writers: seq<seq<seq<KeyedRow>>>,
                      input: seq<KeyedRow>, keys: seq<string>, cells: seq<Cell>)
    requires count > 0 && AllSplit(hash, depth, count, memory, writers, input) && KeysOf(memory, keys)
    requires |cells| == |keys| && forall g :: 0 <= g < |keys| ==> cells[g].key == keys[g] && judge(cells[g], RowsOf(memory, keys[g]))
    ensures Emitted(judge, hash, depth, count, memory, input, cells, 0)
  {
    DistinctAt(keys);
    forall i | 0 <= i < |cells| ensures RowsOf(memory, keys[i]) == RowsOf(input, keys[i]) != [] {
      assert keys[i] in keys;
      assert Split(hash, depth, count, memory, writers, input, keys[i]);
    }
    forall key | RowsOf(memory, key) != [] ensures HasCell(cells, key) {
      var i :| 0 <= i < |keys| && keys[i] == key;
      assert cells[i].key == key;
    }
  }

  // ----- the emitted batches -----------------------------------------------------------

  function AllCells(outputs: seq<Output>): seq<Cell> {
    if outputs == [] then [] else AllCells(outputs[..|outputs|-1]) + CellsOf(outputs[|outputs|-1])
  }

  lemma AllCellsMore(outputs: seq<Output>, o: Output)
    ensures AllCells(outputs + [o]) == AllCells(outputs) + CellsOf(o)
  {
    assert (outputs + [o])[..|outputs|] == outputs;
  }

  lemma AllCellsConcat(a: seq<Output>, b: seq<Output>)
    requires b != []
    ensures AllCells(a + b) == AllCells(a) + AllCells(b)
  {
    forall xs, o ensures AllCells(xs + [o]) == AllCells(xs) + CellsOf(o) { AllCellsMore(xs, o); }
    forall o ensures AllCells([o]) == CellsOf(o) { OneOutput(o); }
    Concatenates(AllCells, a, b);
  }

  /** A function that lists the rows of batch after batch. */
  lemma {:induction false} Concatenates(f: seq<Output> -> seq<Cell>, a: seq<Output>, b: seq<Output>)
    requires (forall xs, o :: f(xs + [o]) == f(xs) + CellsOf(o)) && forall o :: f([o]) == CellsOf(o)
    requires b != []
    ensures f(a + b) == f(a) + f(b)
  {
    var init, last := b[..|b|-1], b[|b|-1];
    assert b == init + [last];
    if |b| == 1 {
      assert b == [last];
    } else {
      Concatenates(f, a, init);
      assert a + b == (a + init) + [last];
      assert f(a) + (f(init) + CellsOf(last)) == f(a) + f(init) + CellsOf(last);
    }
  }

  lemma OneOutput(o: Output)
    ensures AllCells([o]) == CellsOf(o)
  {
    assert [o][..0] == [] && [] + CellsOf(o) == CellsOf(o);
  }

  /** The sum column of a batch is of doubles when one of its own groups needs them. */
  ghost predicate Typed(calls: Calls, o: Output, input: seq<KeyedRow>) {
    o.sums.IntColumn? <==> !calls.average && forall g :: 0 <= g < |o.keys| ==> !HasDouble(RowsOf(input, o.keys[g]))
  }

  /** Grouped evaluation of the input: every key comes out once, with its one-pass
      aggregates; only the type of the sums is decided batch by batch. */
  ghost predicate Evaluates(calls: Calls, outputs: seq<Output>, input: seq<KeyedRow>) {
    && (forall o :: o in outputs ==> Typed(calls, o, input))
    && Grouped(JudgeOf(calls), AllCells(outputs), input)
  }

  function JudgeOf(calls: Calls): Judge { (c, rows) => RowsFit(calls, rows) && IsRight(calls, c, rows) }

  lemma {:induction false} CellIsListed(outputs: seq<Output>, o: Output, g: nat)
    requires o in outputs && g < |o.keys|
    ensures HasCell(AllCells(outputs), o.keys[g])
  {
    var init, last := outputs[..|outputs|-1], outputs[|outputs|-1];
    assert outputs == init + [last];
    HasCellConcat(AllCells(init), CellsOf(last), o.keys[g]);
    if o in init {
      CellIsListed(init, o, g);
    } else {
      assert CellsOf(last)[g].key == o.keys[g];
    }
  }

  /** The type of a partition's column is decided by the same rows in the whole input. */
  lemma TypedInPartition(calls: Calls, hash: Hash, depth: nat, count: nat, memory: seq<KeyedRow>, writers: seq<seq<seq<KeyedRow>>>,
                         input: seq<KeyedRow>, n: nat, more: seq<Output>, o: Output)
    requires count > 0 && AllSplit(hash, depth, count, memory, writers, input) && n < |writers|
    requires Evaluates(calls, more, Flat(writers[n])) && o in more
    ensures Typed(calls, o, input)
  {
    forall g | 0 <= g < |o.keys| ensures RowsOf(Flat(writers[n]), o.keys[g]) == RowsOf(input, o.keys[g]) {
      CellIsListed(more, o, g);
      InPartition(hash, depth, count, memory, writers, input, n, o.keys[g]);
    }
  }

  lemma TypedInMemory(calls: Calls, hash: Hash, depth: nat, count: nat, memory: seq<KeyedRow>, writers: seq<seq<seq<KeyedRow>>>,
                      input: seq<KeyedRow>, o: Output)
    requires count > 0 && AllSplit(hash, depth, count, memory, writers, input) && KeysOf(memory, o.keys)
    requires o.sums.IntColumn? <==> !calls.average && !HasDouble(memory)
    ensures Typed(calls, o, input)
  {
    SomeKeyHasDouble(memory, o.keys);
    forall g | 0 <= g < |o.keys| ensures RowsOf(memory, o.keys[g]) == RowsOf(input, o.keys[g]) {
      assert o.keys[g] in o.keys;
      assert Split(hash, depth, count, memory, writers, input, o.keys[g]);
    }
  }

  /** What the batches behind those of the memory hold: each some keys, all of one partition. */
  ghost predicate Spilled(hash: Hash, depth: nat, count: nat, outputs: seq<Output>, from: nat)
    requires count > 0
  {
    forall b :: from <= b < |outputs| ==> outputs[b].keys != [] && OnePartition(hash, depth, count, outputs[b].keys)
  }

  ghost predicate OnePartition(hash: Hash, depth: nat, count: nat, keys: seq<string>)
    requires count > 0
  {
    forall x, y :: x in keys && y in keys ==> PartitionOf(hash, depth, count, x) == PartitionOf(hash, depth, count, y)
  }

  ghost predicate NoneEmpty(outputs: seq<Output>) { forall o :: o in outputs ==> o.keys != [] }

  lemma SpilledMore(calls: Calls, hash: Hash, depth: nat, count: nat, memory: seq<KeyedRow>, writers: seq<seq<seq<KeyedRow>>>,
                    input: seq<KeyedRow>, outputs: seq<Output>, from: nat, n: nat, more: seq<Output>)
    requires count > 0 && AllSplit(hash, depth, count, memory, writers, input) && n < |writers|
    requires Spilled(hash, depth, count, outputs, from) && Evaluates(calls, more, Flat(writers[n])) && NoneEmpty(more)
    ensures Spilled(hash, depth, count, outputs + more, from)
  {
    forall o | o in more ensures OnePartition(hash, depth, count, o.keys) {
      forall key | key in o.keys ensures PartitionOf(hash, depth, count, key) == n {
        var g :| 0 <= g < |o.keys| && o.keys[g] == key;
        CellIsListed(more, o, g);
        InPartition(hash, depth, count, memory, writers, input, n, key);
      }
    }
  }

  /** The batches emitted before partition n. */
  ghost predicate Partial(calls: Calls, hash: Hash, depth: nat, count: nat, memory: seq<KeyedRow>, input: seq<KeyedRow>, outputs: seq<Output>, n: nat)
    requires count > 0
  {
    && (forall o :: o in outputs ==> Typed(calls, o, input))
    && Emitted(JudgeOf(calls), hash, depth, count, memory, input, AllCells(outputs), n)
  }

  lemma MemoryEmitted(calls: Calls, hash: Hash, depth: nat, count: nat, memory: seq<KeyedRow>, writers: seq<seq<seq<KeyedRow>>>,
                      input: seq<KeyedRow>, keys: seq<string>, cells: seq<Cell>)
    requires count > 0 && AllSplit(hash, depth, count, memory, writers, input) && KeysOf(memory, keys) && AllFit(calls, memory)
    requires |cells| == |keys| && forall g :: 0 <= g < |keys| ==> cells[g].key == keys[g] && IsRight(calls, cells[g], RowsOf(memory, keys[g]))
    ensures Emitted(JudgeOf(calls), hash, depth, count, memory, input, cells, 0)
  {
    forall g | 0 <= g < |keys| ensures JudgeOf(calls)(cells[g], RowsOf(memory, keys[g])) { assert RowsFit(calls, RowsOf(memory, keys[g])); }
    EmittedMemory(JudgeOf(calls), hash, depth, count, memory, writers, input, keys, cells);
  }

  lemma PartialMemory(calls: Calls, hash: Hash, depth: nat, count: nat, memory: seq<KeyedRow>, writers: seq<seq<seq<KeyedRow>>>,
                      input: seq<KeyedRow>, o: Output)
    requires count > 0 && AllSplit(hash, depth, count, memory, writers, input) && KeysOf(memory, o.keys) && AllFit(calls, memory)
    requires o.sums.IntColumn? <==> !calls.average && !HasDouble(memory)
    requires forall g :: 0 <= g < |o.keys| ==> IsRight(calls, CellsOf(o)[g], RowsOf(memory, o.keys[g]))
    ensures Partial(calls, hash, depth, count, memory, input, [o], 0)
  {
    TypedInMemory(calls, hash, depth, count, memory, writers, input, o);
    MemoryEmitted(calls, hash, depth, count, memory, writers, input, o.keys, CellsOf(o));
    OneOutput(o);
  }

  lemma PartialMore(calls: Calls, hash: Hash, depth: nat, count: nat, memory: seq<KeyedRow>, writers: seq<seq<seq<KeyedRow>>>,
                    input: seq<KeyedRow>, outputs: seq<Output>, n: nat, more: seq<Output>)
    requires count > 0 && AllSplit(hash, depth, count, memory, writers, input) && n < |writers|
    requires Partial(calls, hash, depth, count, memory, input, outputs, n) && Evaluates(calls, more, Flat(writers[n])) && more != []
    ensures Partial(calls, hash, depth, count, memory, input, outputs + more, n + 1)
  {
    forall o | o in more ensures Typed(calls, o, input) {
      TypedInPartition(calls, hash, depth, count, memory, writers, input, n, more, o);
    }
    AllCellsConcat(outputs, more);
    EmittedMore(JudgeOf(calls), hash, depth, count, memory, writers, input, AllCells(outputs), n, AllCells(more));
  }

  /** A partition that no row hashed to. */
  lemma PartialSkip(calls: Calls, hash: Hash, depth: nat, count: nat, memory: seq<KeyedRow>, writers: seq<seq<seq<KeyedRow>>>,
                    input: seq<KeyedRow>, outputs: seq<Output>, n: nat)
    requires count > 0 && AllSplit(hash, depth, count, memory, writers, input) && n < |writers| && writers[n] == []
    requires Partial(calls, hash, depth, count, memory, input, outputs, n)
    ensures Partial(calls, hash, depth, count, memory, input, outputs, n + 1)
  {
    forall key | RowsOf(input, key) != [] && Done(hash, depth, count, memory, key, n + 1) ensures HasCell(AllCells(outputs), key) {
      InPartition(hash, depth, count, memory, writers, input, n, key);
    }
  }

  lemma PartialAll(calls: Calls, hash: Hash, depth: nat, count: nat, memory: seq<KeyedRow>, writers: seq<seq<seq<KeyedRow>>>,
                   input: seq<KeyedRow>, outputs: seq<Output>)
    requires count > 0 && AllSplit(hash, depth, count, memory, writers, input) && (writers == [] || |writers| == count)
    requires Partial(calls, hash, depth, count, memory, input, outputs, |writers|)
    ensures Evaluates(calls, outputs, input)
  {
    EmittedAll(JudgeOf(calls), hash, depth, count, memory, writers, input, AllCells(outputs));
  }

  /** Spilled evaluation is grouped evaluation: whenever the memory tests fire and
      whatever the hash, every key of the input comes out exactly once with its
      one-pass aggregates, or some key's rows cannot be aggregated at all. The first
      batch holds the groups in memory; partitions are evaluated recursively, at most
      MAX_DEPTH deep. */
  method Finish(a: EvaluatedAggregator) returns (r: Option<seq<Output>>)
    requires a.Valid()
    ensures r.None? ==> !AllFit(a.calls, a.input)
    ensures r.Some? ==> r.value != [] && r.value[0].keys == a.groups.keys && Evaluates(a.calls, r.value, a.input)
    ensures r.Some? ==> Spilled(a.hash, a.depth, a.count, r.value, 1)
    decreases MAX_DEPTH - a.depth, 2
  {
    var first := a.groups.Finish();
    ghost var memory, input := a.groups.rows, a.input;
    var calls, hash, depth, count, writers := a.calls, a.hash, a.depth, a.count, a.writers;
    PartialMemory(calls, hash, depth, count, memory, writers, input, first);
    r := FinishPartitions(calls, hash, depth, count, writers, [first], memory, input);
  }

  /** Each partition's groups, behind the batches emitted before. */
  method FinishPartitions(calls: Calls, hash: Hash, depth: nat, count: nat, writers: seq<seq<seq<KeyedRow>>>, first: seq<Output>,
                          ghost memory: seq<KeyedRow>, ghost input: seq<KeyedRow>) returns (r: Option<seq<Output>>)
    requires count > 0 && AllSplit(hash, depth, count, memory, writers, input) && (writers == [] || (|writers| == count && depth < MAX_DEPTH))
    requires Partial(calls, hash, depth, count, memory, input, first, 0) && Filled(writers)
    ensures r.None? ==> !AllFit(calls, input)
    ensures r.Some? ==> first <= r.value && Evaluates(calls, r.value, input) && Spilled(hash, depth, count, r.value, |first|)
    decreases MAX_DEPTH - depth, 1
  {
    var outputs := first;
    for index := 0 to |writers|
      invariant first <= outputs && Partial(calls, hash, depth, count, memory, input, outputs, index)
      invariant Spilled(hash, depth, count, outputs, |first|)
    {
      if writers[index] == [] {
        PartialSkip(calls, hash, depth, count, memory, writers, input, outputs, index);
      } else {
        PartitionFits(calls, hash, depth, count, memory, writers, input, index);
        var more := FinishPartition(calls, hash, depth, count, writers[index]);
        if more.None? { return None; }
        PartialMore(calls, hash, depth, count, memory, writers, input, outputs, index, more.value);
        SpilledMore(calls, hash, depth, count, memory, writers, input, outputs, |first|, index, more.value);
        outputs := outputs + more.value;
      }
    }
    PartialAll(calls, hash, depth, count, memory, writers, input, outputs);
    return Some(outputs);
  }

  /** Reads a spill file back into an aggregator one level deeper. */
  method FinishPartition(calls: Calls, hash: Hash, depth: nat, count: nat, batches: seq<seq<KeyedRow>>) returns (r: Option<seq<Output>>)
    requires depth < MAX_DEPTH && batches != [] && AllFilled(batches)
    ensures r.None? ==> !AllFit(calls, Flat(batches))
    ensures r.Some? ==> r.value != [] && NoneEmpty(r.value) && Evaluates(calls, r.value, Flat(batches))
    decreases MAX_DEPTH - depth, 0
  {
    var ok, partition := ReadPartition(calls, hash, depth, count, batches);
    if !ok { return None; }
    r := Finish(partition);
    if r.Some? { NoneIsEmpty(hash, depth + 1, partition.count, r.value); }
  }

  method ReadPartition(calls: Calls, hash: Hash, depth: nat, count: nat, batches: seq<seq<KeyedRow>>)
    returns (ok: bool, partition: EvaluatedAggregator)
    requires depth < MAX_DEPTH && batches != [] && AllFilled(batches)
    ensures fresh(partition.Parts()) && partition.calls == calls && partition.hash == hash && partition.depth == depth + 1
    ensures ok ==> partition.Valid() && partition.input == Flat(batches) && partition.groups.keys != []
    ensures !ok ==> !AllFit(calls, Flat(batches))
  {
    partition := new EvaluatedAggregator(calls, hash, count, depth + 1);
    var overBudget: nat -> bool := *;
    ok := ConsumeAll(partition, batches, overBudget);
    FirstOfFilled(batches);
    if ok { SomeKeyKnown(First(batches), partition.groups.keys); }
  }

  lemma SomeKeyKnown(rows: seq<KeyedRow>, keys: seq<string>)
    requires Known(rows, keys) && rows != []
    ensures keys != []
  {
    assert rows[0].key in keys;
  }

  lemma NoneIsEmpty(hash: Hash, depth: nat, count: nat, outputs: seq<Output>)
    requires count > 0 && outputs != [] && outputs[0].keys != [] && Spilled(hash, depth, count, outputs, 1)
    ensures NoneEmpty(outputs)
  {
    forall o | o in outputs ensures o.keys != [] { var b :| 0 <= b < |outputs| && outputs[b] == o; }
  }

  lemma {:induction false} FirstOfFilled(batches: seq<seq<KeyedRow>>)
    requires batches != [] && AllFilled(batches)
    ensures First(batches) == batches[0] != []
  {
    if |batches| > 1 { FirstOfFilled(batches[..|batches|-1]); }
  }

  lemma {:induction false} NoRowAtAll(batches: seq<seq<KeyedRow>>)
    ensures First(batches) == [] <==> Flat(batches) == []
  {
    if batches != [] { NoRowAtAll(batches[..|batches|-1]); }
  }

  /** Feeds batches one after the other, without those that hold no row; `overBudget`
      gives the outcome of the memory test after each of them. The groups in memory
      include those of the first batch, and are these alone if the first test fires. */
  method ConsumeAll(a: EvaluatedAggregator, batches: seq<seq<KeyedRow>>, overBudget: nat -> bool) returns (ok: bool)
    requires a.Valid() && a.input == [] && !a.frozen
    modifies a.Parts()
    ensures ok ==> a.Valid() && a.input == Flat(batches) && Known(First(batches), a.groups.keys)
    ensures ok && a.depth < MAX_DEPTH && (forall b :: overBudget(b)) && First(batches) != [] ==> KeysOf(First(batches), a.groups.keys)
    ensures !ok ==> !AllFit(a.calls, Flat(batches))
  {
    for b := 0 to |batches|
      invariant a.Valid() && a.input == Flat(batches[..b]) && Known(First(batches[..b]), a.groups.keys)
      invariant First(batches[..b]) == [] ==> !a.frozen
      invariant a.depth < MAX_DEPTH && (forall b :: overBudget(b)) ==> First(batches[..b]) == [] || (a.frozen && KeysOf(First(batches[..b]), a.groups.keys))
    {
      assert batches[..b + 1][..b] == batches[..b];
      if batches[b] == [] {
        assert Flat(batches[..b]) + [] == Flat(batches[..b]);
      } else {
        NoRowAtAll(batches[..b]);
        ok := ConsumeNext(a, batches[b], overBudget(b), First(batches[..b]));
        if !ok {
          PrefixFits(a.calls, batches, b + 1);
          return;
        }
      }
    }
    assert batches[..|batches|] == batches;
    NoRowAtAll(batches);
    return true;
  }

  /** One batch more, behind a first one if there was any. */
  method ConsumeNext(a: EvaluatedAggregator, batch: seq<KeyedRow>, overBudget: bool, ghost first: seq<KeyedRow>) returns (ok: bool)
    requires a.Valid() && batch != [] && Known(first, a.groups.keys) && (first == [] ==> a.input == [] && !a.frozen)
    modifies a.Parts()
    ensures ok ==> a.Valid() && a.input == old(a.input) + batch && Known(if first != [] then first else batch, a.groups.keys)
    ensures ok && first != [] && old(a.frozen && KeysOf(first, a.groups.keys)) ==> a.frozen && KeysOf(first, a.groups.keys)
    ensures ok && first == [] && overBudget && a.depth < MAX_DEPTH ==> a.frozen && KeysOf(batch, a.groups.keys)
    ensures !ok ==> !AllFit(a.calls, old(a.input) + batch)
  {
    ghost var before := a.groups.keys;
    ok := a.Consume(batch, overBudget);
    if ok {
      if first == [] {
        assert [] + batch == batch;
        FirstKeys(a.groups.rows, batch, a.groups.keys);
      } else {
        KnownStays(first, before, a.groups.keys);
      }
    }
  }

  lemma FirstKeys(rows: seq<KeyedRow>, batch: seq<KeyedRow>, keys: seq<string>)
    requires rows == batch && KeysOf(rows, keys)
    ensures KeysOf(batch, keys) && Known(batch, keys)
  {
    forall r | r in batch ensures r.key in keys { RowsOfKey(batch, r.key); }
  }

  lemma KnownStays(rows: seq<KeyedRow>, keys: seq<string>, more: seq<string>)
    requires Known(rows, keys) && keys <= more
    ensures Known(rows, more)
  {
    forall r | r in rows ensures r.key in more {
      var k :| 0 <= k < |keys| && keys[k] == r.key;
      assert more[k] == r.key;
    }
  }

  lemma {:induction false} PrefixFits(calls: Calls, batches: seq<seq<KeyedRow>>, n: nat)
    requires n <= |batches|
    ensures AllFit(calls, Flat(batches)) ==> AllFit(calls, Flat(batches[..n]))
    decreases |batches| - n
  {
    if n < |batches| {
      PrefixFits(calls, batches, n + 1);
      assert batches[..n + 1][..n] == batches[..n];
      if AllFit(calls, Flat(batches[..n + 1])) {
        forall key ensures RowsFit(calls, RowsOf(Flat(batches[..n]), key)) {
          assert RowsFit(calls, RowsOf(Flat(batches[..n + 1]), key));
          RowsOfConcat(Flat(batches[..n]), batches[n], key);
          MoreRowsFitLess(calls, RowsOf(Flat(batches[..n]), key), RowsOf(batches[n], key));
        }
      }
    } else {
      assert batches[..n] == batches;
    }
  }

  /** A whole grouped query: it fails exactly when some key's rows cannot be
      aggregated. */
  method Aggregate(calls: Calls, hash: Hash, spillPartitions: nat, batches: seq<seq<KeyedRow>>, overBudget: nat -> bool)
    returns (r: Option<seq<Output>>)
    ensures r.Some? <==> AllFit(calls, Flat(batches))
    ensures r.Some? ==> Evaluates(calls, r.value, Flat(batches))
    ensures r.Some? ==> r.value != [] && Spilled(hash, 0, Partitions(spillPartitions), r.value, 1)
    ensures r.Some? && (forall b :: overBudget(b)) && First(batches) != [] ==> KeysOf(First(batches), r.value[0].keys)
    ensures r.Some? && OneSumType(calls, batches) ==> SumsAgree(calls, r.value, Flat(batches))
  {
    var a := new EvaluatedAggregator(calls, hash, spillPartitions, 0);
    var ok := ConsumeAll(a, batches, overBudget);
    if !ok { return None; }
    r := Finish(a);
    if r.Some? {
      EvaluatedFits(calls, AllCells(r.value), Flat(batches));
      if OneSumType(calls, batches) { OneTypeAgrees(calls, hash, Partitions(spillPartitions), r.value, batches); }
    }
  }

  function Partitions(spillPartitions: nat): nat { if spillPartitions < 2 then 2 else spillPartitions }

  lemma EvaluatedFits(calls: Calls, cells: seq<Cell>, input: seq<KeyedRow>)
    requires Grouped(JudgeOf(calls), cells, input)
    ensures AllFit(calls, input)
  {
    forall key ensures RowsFit(calls, RowsOf(input, key)) {
      if RowsOf(input, key) != [] { assert HasCell(cells, key); }
    }
  }

  // ----- the type of the sums ------------------------------------------------------------

  /** The sums of every batch have the type that a single pass gives them. */
  ghost predicate SumsAgree(calls: Calls, outputs: seq<Output>, input: seq<KeyedRow>) {
    forall o :: o in outputs ==> (o.sums.IntColumn? <==> !calls.average && !HasDouble(input))
  }

  /** Some row of the first batch has a key with a double, and so has every key that
      the first batch does not hold, unless no type is in question. */
  predicate OneSumType(calls: Calls, batches: seq<seq<KeyedRow>>) {
    var input, first := Flat(batches), First(batches);
    calls.average || !HasDouble(input) ||
    ((exists r :: r in first && HasDouble(RowsOf(input, r.key))) &&
     forall r :: r in input && !HasKey(first, r.key) ==> HasDouble(RowsOf(input, r.key)))
  }

  predicate HasKey(rows: seq<KeyedRow>, key: string) { exists q :: q in rows && q.key == key }

  lemma DoubleOfSomeKey(input: seq<KeyedRow>, key: string)
    requires HasDouble(RowsOf(input, key))
    ensures HasDouble(input)
  {
    var j :| 0 <= j < |RowsOf(input, key)| && RowsOf(input, key)[j].value.Double?;
    RowsOfAre(input, key, RowsOf(input, key)[j]);
    var i :| 0 <= i < |input| && input[i] == RowsOf(input, key)[j];
  }

  lemma ListedCell(outputs: seq<Output>, key: string)
    requires HasCell(AllCells(outputs), key)
    ensures exists o :: o in outputs && key in o.keys
  {
    forall xs, o ensures AllCells(xs + [o]) == AllCells(xs) + CellsOf(o) { AllCellsMore(xs, o); }
    ListedIn(AllCells, outputs, key);
  }

  lemma {:induction false} ListedIn(f: seq<Output> -> seq<Cell>, outputs: seq<Output>, key: string)
    requires f([]) == [] && forall xs, o :: f(xs + [o]) == f(xs) + CellsOf(o)
    requires HasCell(f(outputs), key)
    ensures exists o :: o in outputs && key in o.keys
  {
    if outputs != [] {
      var init, last := outputs[..|outputs|-1], outputs[|outputs|-1];
      assert outputs == init + [last];
      HasCellConcat(f(init), CellsOf(last), key);
      KeyHasCell(last, key);
      if key !in last.keys { ListedIn(f, init, key); }
    }
  }

  /** No key of a later batch is one of the first. */
  lemma LaterKeysAreNew(calls: Calls, outputs: seq<Output>, input: seq<KeyedRow>, b: nat, key: string)
    requires Evaluates(calls, outputs, input) && 0 < b < |outputs| && key in outputs[b].keys
    ensures key !in outputs[0].keys && RowsOf(input, key) != []
  {
    SplitFirst(outputs);
    var rest := outputs[1..];
    assert rest[b - 1] == outputs[b];
    var g :| 0 <= g < |outputs[b].keys| && outputs[b].keys[g] == key;
    CellIsListed(rest, outputs[b], g);
    Apart(CellsOf(outputs[0]), AllCells(rest), AllCells(outputs), key);
    KeyHasCell(outputs[0], key);
  }

  lemma KeyHasCell(o: Output, key: string)
    ensures HasCell(CellsOf(o), key) <==> key in o.keys
  {
    if g :| 0 <= g < |o.keys| && o.keys[g] == key { assert CellsOf(o)[g].key == key; }
    if g :| 0 <= g < |CellsOf(o)| && CellsOf(o)[g].key == key { assert o.keys[g] == key; }
  }

  lemma SplitFirst(outputs: seq<Output>)
    requires |outputs| > 1
    ensures AllCells(outputs) == CellsOf(outputs[0]) + AllCells(outputs[1..])
  {
    assert outputs == [outputs[0]] + outputs[1..];
    AllCellsConcat([outputs[0]], outputs[1..]);
    OneOutput(outputs[0]);
  }

  lemma Apart(first: seq<Cell>, rest: seq<Cell>, all: seq<Cell>, key: string)
    requires all == first + rest && HasCell(rest, key) && forall i, j :: 0 <= i < j < |all| ==> all[i].key != all[j].key
    ensures HasCell(all, key) && !HasCell(first, key)
  {
    var i :| 0 <= i < |rest| && rest[i].key == key;
    assert all[|first| + i].key == key;
    forall j | 0 <= j < |first| ensures first[j].key != key { assert all[j].key != all[|first| + i].key; }
  }

  lemma WithDouble(calls: Calls, o: Output, input: seq<KeyedRow>, key: string)
    requires Typed(calls, o, input) && key in o.keys && HasDouble(RowsOf(input, key))
    ensures o.sums.DoubleColumn?
  {
    var g :| 0 <= g < |o.keys| && o.keys[g] == key;
  }

  lemma OneTypeAgrees(calls: Calls, hash: Hash, count: nat, outputs: seq<Output>, batches: seq<seq<KeyedRow>>)
    requires count > 0 && outputs != [] && Evaluates(calls, outputs, Flat(batches)) && Spilled(hash, 0, count, outputs, 1)
    requires Known(First(batches), outputs[0].keys) && OneSumType(calls, batches)
    ensures SumsAgree(calls, outputs, Flat(batches))
  {
    var input, first := Flat(batches), First(batches);
    forall key | HasDouble(RowsOf(input, key)) ensures HasDouble(input) { DoubleOfSomeKey(input, key); }
    if !calls.average && HasDouble(input) {
      forall b | 0 <= b < |outputs| ensures outputs[b].sums.DoubleColumn? {
        assert outputs[b] in outputs;
        if b == 0 {
          var r :| r in first && HasDouble(RowsOf(input, r.key));
          WithDouble(calls, outputs[0], input, r.key);
        } else {
          var key := outputs[b].keys[0];
          LaterKeysAreNew(calls, outputs, input, b, key);
          RowsOfKey(input, key);
          WithDouble(calls, outputs[b], input, key);
        }
      }
    }
  }

  /** A batch without a double. */
  lemma WithoutDouble(calls: Calls, o: Output, input: seq<KeyedRow>)
    requires Typed(calls, o, input) && !calls.average && forall key :: key in o.keys ==> !HasDouble(RowsOf(input, key))
    ensures o.sums.IntColumn?
  {
    forall g | 0 <= g < |o.keys| ensures !HasDouble(RowsOf(input, o.keys[g])) { assert o.keys[g] in o.keys; }
  }

  /** A hash that gives one key a partition of its own. */
  function Isolating(k: string): Hash { (key: string, depth: nat) => if key == k then 0 else 1 }

  lemma IsolatedKey(calls: Calls, outputs: seq<Output>, batches: seq<seq<KeyedRow>>, k: string)
    requires !calls.average && outputs != [] && Evaluates(calls, outputs, Flat(batches)) && Spilled(Isolating(k), 0, 2, outputs, 1)
    requires KeysOf(First(batches), outputs[0].keys)
    requires Lone(First(batches), Flat(batches), k)
    ensures exists o :: o in outputs && o.sums.IntColumn?
  {
    var input := Flat(batches);
    RowsOfKey(input, k);
    RowsOfKey(First(batches), k);
    ListedCell(outputs, k);
    var o :| o in outputs && k in o.keys;
    var b :| 0 <= b < |outputs| && outputs[b] == o;
    OnlyKey(outputs, k, b);
    WithoutDouble(calls, o, input);
  }

  lemma OnlyKey(outputs: seq<Output>, k: string, b: nat)
    requires Spilled(Isolating(k), 0, 2, outputs, 1) && 0 < b < |outputs| && k in outputs[b].keys
    ensures forall key :: key in outputs[b].keys ==> key == k
  {
    forall key | key in outputs[b].keys ensures key == k {
      assert PartitionOf(Isolating(k), 0, 2, key) == PartitionOf(Isolating(k), 0, 2, k);
    }
  }

  /** Otherwise they can disagree: there is a hash, and a run in which the first memory
      test fires, with a batch of integers where a single pass gives doubles. */
  method MixedSums(calls: Calls, batches: seq<seq<KeyedRow>>) returns (hash: Hash, outputs: seq<Output>)
    requires AllFit(calls, Flat(batches)) && !OneSumType(calls, batches)
    ensures Evaluates(calls, outputs, Flat(batches)) && !SumsAgree(calls, outputs, Flat(batches))
  {
    var k := LoneKey(calls, batches);
    hash := Isolating(k);
    var r := Aggregate(calls, hash, 2, batches, _ => true);
    outputs := r.value;
    MixedOutputs(calls, outputs, batches, k);
  }

  /** The key to isolate, if the first batch holds one with a double. */
  method LoneKey(calls: Calls, batches: seq<seq<KeyedRow>>) returns (k: string)
    requires !OneSumType(calls, batches)
    ensures !calls.average && HasDouble(Flat(batches)) && First(batches) != []
    ensures NoDoubleKey(First(batches), Flat(batches)) || Lone(First(batches), Flat(batches), k)
  {
    var input, first := Flat(batches), First(batches);
    NoRowAtAll(batches);
    k := "";
    if exists r :: r in first && HasDouble(RowsOf(input, r.key)) {
      var r :| r in input && !HasKey(first, r.key) && !HasDouble(RowsOf(input, r.key));
      k := r.key;
    }
  }

  ghost predicate NoDoubleKey(first: seq<KeyedRow>, input: seq<KeyedRow>) { forall r :: r in first ==> !HasDouble(RowsOf(input, r.key)) }

  predicate Lone(first: seq<KeyedRow>, input: seq<KeyedRow>, k: string) {
    HasKey(input, k) && !HasKey(first, k) && !HasDouble(RowsOf(input, k))
  }

  lemma MixedOutputs(calls: Calls, outputs: seq<Output>, batches: seq<seq<KeyedRow>>, k: string)
    requires !calls.average && HasDouble(Flat(batches)) && outputs != [] && KeysOf(First(batches), outputs[0].keys)
    requires NoDoubleKey(First(batches), Flat(batches)) || Lone(First(batches), Flat(batches), k)
    requires Evaluates(calls, outputs, Flat(batches)) && Spilled(Isolating(k), 0, 2, outputs, 1)
    ensures !SumsAgree(calls, outputs, Flat(batches))
  {
    if NoDoubleKey(First(batches), Flat(batches)) {
      FirstWithoutDouble(calls, outputs[0], batches);
    } else {
      IsolatedKey(calls, outputs, batches, k);
    }
  }

  lemma FirstWithoutDouble(calls: Calls, o: Output, batches: seq<seq<KeyedRow>>)
    requires Typed(calls, o, Flat(batches)) && !calls.average && KeysOf(First(batches), o.keys)
    requires NoDoubleKey(First(batches), Flat(batches))
    ensures o.sums.IntColumn?
  {
    forall key | key in o.keys ensures !HasDouble(RowsOf(Flat(batches), key)) { RowsOfKey(First(batches), key); }
    WithoutDouble(calls, o, Flat(batches));
  }
}
