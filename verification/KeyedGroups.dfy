/** In-memory grouped aggregation: keys are numbered as they appear, and the
    accumulators are fed the numbered rows (src/query/executor/GroupedAggregator.cpp). */
module KeyedGroups {
  import opened Wrappers
  import opened Sequences
  import opened AggregateSpec
  import opened Grouping
  import opened Counting
  import opened Summing
  import opened Choosing

  /** A row with its encoded grouping key and its argument. */
  datatype KeyedRow = KeyedRow(key: string, value: Value)

  /** One call of each kind of aggregate, over the same argument. */
  datatype Calls = Calls(distinct: bool, average: bool, mode: Mode)

  /** The rows of one key, in order. */
  function RowsOf(rows: seq<KeyedRow>, key: string): seq<KeyedRow> {
    if rows == [] then []
    else Extended(RowsOf(rows[..|rows|-1], key), rows[|rows|-1], rows[|rows|-1].key == key)
  }

  lemma {:induction false} RowsOfConcat(a: seq<KeyedRow>, b: seq<KeyedRow>, key: string)
    ensures RowsOf(a + b, key) == RowsOf(a, key) + RowsOf(b, key)
  {
    if b == [] {
      assert a + b == a;
    } else {
      assert (a + b)[..|a + b|-1] == a + b[..|b|-1];
      RowsOfConcat(a, b[..|b|-1], key);
    }
  }

  lemma {:induction false} RowsOfAre(rows: seq<KeyedRow>, key: string, r: KeyedRow)
    ensures r in RowsOf(rows, key) <==> r in rows && r.key == key
  {
    if rows != [] {
      RowsOfAre(rows[..|rows|-1], key, r);
      assert rows == rows[..|rows|-1] + [rows[|rows|-1]];
    }
  }

  lemma RowsOfKey(rows: seq<KeyedRow>, key: string)
    ensures RowsOf(rows, key) != [] <==> exists r :: r in rows && r.key == key
  {
    if RowsOf(rows, key) != [] { RowsOfAre(rows, key, RowsOf(rows, key)[0]); }
    if r :| r in rows && r.key == key { RowsOfAre(rows, key, r); }
  }

  /** The values of rows that are not null. */
  function ValuesOf(rows: seq<KeyedRow>): seq<Value> {
    if rows == [] then []
    else Extended(ValuesOf(rows[..|rows|-1]), rows[|rows|-1].value, !rows[|rows|-1].value.Nul?)
  }

  lemma {:induction false} ValuesOfConcat(a: seq<KeyedRow>, b: seq<KeyedRow>)
    ensures ValuesOf(a + b) == ValuesOf(a) + ValuesOf(b)
  {
    if b == [] {
      assert a + b == a;
    } else {
      assert (a + b)[..|a + b|-1] == a + b[..|b|-1];
      ValuesOfConcat(a, b[..|b|-1]);
    }
  }

  lemma {:induction false} ValuesOfNonNull(rows: seq<KeyedRow>)
    ensures NonNull(ValuesOf(rows))
  {
    if rows != [] { ValuesOfNonNull(rows[..|rows|-1]); }
  }

  // ----- from keys to group numbers -----------------------------------------------------

  function IndexIn(keys: seq<string>, key: string): (k: nat)
    ensures k <= |keys| && (k < |keys| ==> keys[k] == key)
  {
    FirstIndex(keys, k => k == key)
  }

  lemma IndexIsFirst(keys: seq<string>, key: string)
    ensures forall j :: 0 <= j < IndexIn(keys, key) ==> keys[j] != key
    ensures IndexIn(keys, key) < |keys| <==> key in keys
  {
    NoneBefore(keys, k => k == key);
  }

  /** The rows under a numbering of their keys, as the accumulators see them. */
  function Numbered(rows: seq<KeyedRow>, keys: seq<string>): (r: seq<Row>)
    ensures |r| == |rows| && forall i :: 0 <= i < |r| ==> r[i] == Row(IndexIn(keys, rows[i].key), rows[i].value)
  {
    seq(|rows|, i requires 0 <= i < |rows| => Row(IndexIn(keys, rows[i].key), rows[i].value))
  }

  /** Whatever the numbering of distinct keys, a group receives the values of its key
      in input order, so its aggregates do not depend on the numbering. */
  lemma {:induction false} NumberingDoesNotMatter(rows: seq<KeyedRow>, keys: seq<string>, g: nat)
    requires g < |keys| && Distinct(keys)
    ensures GroupValues(Numbered(rows, keys), g) == ValuesOf(RowsOf(rows, keys[g]))
  {
    DistinctAt(keys);
    if rows != [] {
      var init, last := rows[..|rows|-1], rows[|rows|-1];
      NumberingDoesNotMatter(init, keys, g);
      assert Numbered(rows, keys) == Numbered(init, keys) + [Row(IndexIn(keys, last.key), last.value)];
      GroupValuesMore(Numbered(init, keys), Row(IndexIn(keys, last.key), last.value), g);
      IndexIsFirst(keys, last.key);
      ValuesOfLast(rows, keys[g]);
    }
  }

  lemma ValuesOfLast(rows: seq<KeyedRow>, key: string)
    requires rows != []
    ensures var init, last := rows[..|rows|-1], rows[|rows|-1];
            ValuesOf(RowsOf(rows, key)) == Extended(ValuesOf(RowsOf(init, key)), last.value, last.key == key && !last.value.Nul?)
  {
    var init, last := RowsOf(rows[..|rows|-1], key), rows[|rows|-1];
    assert (init + [last])[..|init|] == init;
  }

  /** The keys are those of the rows. */
  ghost predicate KeysOf(rows: seq<KeyedRow>, keys: seq<string>) {
    && Distinct(keys)
    && forall key :: key in keys <==> RowsOf(rows, key) != []
  }

  /** No row has a new key. */
  ghost predicate Known(rows: seq<KeyedRow>, keys: seq<string>) { forall r :: r in rows ==> r.key in keys }

  /** The index finds every key at its number. */
  ghost predicate Indexes(index: map<string, nat>, keys: seq<string>) {
    && (forall k :: 0 <= k < |keys| ==> keys[k] in index && index[keys[k]] == k)
    && forall key :: key in index ==> index[key] < |keys| && keys[index[key]] == key
  }

  lemma IndexedKey(index: map<string, nat>, keys: seq<string>, key: string)
    requires Indexes(index, keys)
    ensures Distinct(keys) && (key in index <==> key in keys) && (key in index ==> index[key] == IndexIn(keys, key))
  {
    DistinctAt(keys);
    IndexIsFirst(keys, key);
  }

  /** New keys do not change the numbers of rows whose keys were known. */
  lemma NumbersStay(rows: seq<KeyedRow>, keys: seq<string>, more: seq<string>)
    requires keys <= more && Known(rows, keys)
    ensures Numbered(rows, more) == Numbered(rows, keys)
  {
    forall i | 0 <= i < |rows| ensures IndexIn(more, rows[i].key) == IndexIn(keys, rows[i].key) {
      var k := IndexIn(keys, rows[i].key);
      assert rows[i].key in keys;
      IndexIsFirst(keys, rows[i].key);
      IndexIsFirst(more, rows[i].key);
      assert more[k] == rows[i].key && forall j :: 0 <= j < k ==> more[j] == keys[j];
    }
  }

  /** A batch in the accumulators' terms. */
  lemma NumberedBatch(rows: seq<KeyedRow>, batch: seq<KeyedRow>, before: seq<string>, keys: seq<string>, ids: seq<nat>)
    requires KeysOf(rows, before) && before <= keys
    requires |ids| == |batch| && forall i :: 0 <= i < |ids| ==> ids[i] == IndexIn(keys, batch[i].key)
    ensures Numbered(rows + batch, keys) == Numbered(rows, before) + Incoming(Some(ArgumentOf(batch)), ids)
  {
    forall r | r in rows ensures r.key in before { RowsOfKey(rows, r.key); }
    NumbersStay(rows, before, keys);
  }

  function ArgumentOf(batch: seq<KeyedRow>): (values: seq<Value>)
    ensures |values| == |batch| && forall i :: 0 <= i < |values| ==> values[i] == batch[i].value
  {
    seq(|batch|, i requires 0 <= i < |batch| => batch[i].value)
  }

  lemma KeysOfMore(rows: seq<KeyedRow>, batch: seq<KeyedRow>, before: seq<string>, keys: seq<string>)
    requires KeysOf(rows, before) && Distinct(keys)
    requires forall key :: key in keys <==> key in before || exists r :: r in batch && r.key == key
    ensures KeysOf(rows + batch, keys)
  {
    forall key ensures key in keys <==> RowsOf(rows + batch, key) != [] {
      RowsOfConcat(rows, batch, key);
      RowsOfKey(batch, key);
    }
  }

  // ----- what a group must come out as ---------------------------------------------------

  /** A sum is an integer or a double, by the type of its column. */
  datatype SumValue = Whole(ints: Option<Int64>) | Floating(doubles: Option<real>)

  /** One emitted row. */
  datatype Cell = Cell(key: string, count: nat, sum: SumValue, chosen: Value)

  /** The key column and a column for each call. */
  datatype Columns = Columns(keys: seq<string>, counts: seq<nat>, sums: Column, chosen: seq<Value>)

  predicate Rectangular(o: Columns) {
    && |o.counts| == |o.chosen| == |o.keys|
    && |o.keys| == if o.sums.IntColumn? then |o.sums.ints| else |o.sums.doubles|
  }

  /** One emitted batch. */
  type Output = o: Columns | Rectangular(o) witness Columns([], [], IntColumn([]), [])

  function CellsOf(o: Output): (cells: seq<Cell>)
    ensures |cells| == |o.keys| && forall g :: 0 <= g < |cells| ==> cells[g].key == o.keys[g]
  {
    seq(|o.keys|, g requires 0 <= g < |o.keys| =>
      Cell(o.keys[g], o.counts[g], if o.sums.IntColumn? then Whole(o.sums.ints[g]) else Floating(o.sums.doubles[g]), o.chosen[g]))
  }

  /** The emitted row is COUNT, SUM (or AVG) and the choice of the rows of its key,
      as one pass over them gives them. */
  predicate IsRight(calls: Calls, c: Cell, rows: seq<KeyedRow>) {
    var xs := ValuesOf(rows);
    && c.count == CountOf(calls.distinct, xs)
    && Some(c.chosen) == Choose(calls.mode, xs)
    && match c.sum
       case Whole(ints) => !calls.average && ints == IntCell(xs)
       case Floating(doubles) => doubles == DoubleCell(calls.average, xs)
  }

  /** Every value can be summed, and every choice made. */
  predicate RowsFit(calls: Calls, rows: seq<KeyedRow>) {
    (forall r :: r in rows ==> Summable(r.value)) && Choose(calls.mode, ValuesOf(rows)).Some?
  }

  ghost predicate AllFit(calls: Calls, rows: seq<KeyedRow>) { forall key :: RowsFit(calls, RowsOf(rows, key)) }

  lemma MoreRowsFitLess(calls: Calls, a: seq<KeyedRow>, b: seq<KeyedRow>)
    requires RowsFit(calls, a + b)
    ensures RowsFit(calls, a)
  {
    assert forall r :: r in a ==> r in a + b;
    ValuesOfConcat(a, b);
    ValuesOfNonNull(a);
    ValuesOfNonNull(b);
    ChooseConcat(calls.mode, ValuesOf(a), ValuesOf(b));
  }

  lemma SummableRows(calls: Calls, rows: seq<KeyedRow>)
    requires AllFit(calls, rows)
    ensures forall r :: r in rows ==> Summable(r.value)
  {
    forall r | r in rows ensures Summable(r.value) {
      RowsOfAre(rows, r.key, r);
      assert RowsFit(calls, RowsOf(rows, r.key));
    }
  }

  /** The accumulators' own conditions, by key. */
  lemma FitIff(calls: Calls, rows: seq<KeyedRow>, keys: seq<string>)
    requires KeysOf(rows, keys)
    ensures AllFit(calls, rows) <==> (forall r :: r in rows ==> Summable(r.value)) && Choosable(calls.mode, Numbered(rows, keys), |keys|)
  {
    forall g | 0 <= g < |keys| ensures ChoiceOf(calls.mode, Numbered(rows, keys), g) == Choose(calls.mode, ValuesOf(RowsOf(rows, keys[g]))) {
      NumberingDoesNotMatter(rows, keys, g);
    }
    if AllFit(calls, rows) {
      SummableRows(calls, rows);
      assert forall g :: 0 <= g < |keys| ==> RowsFit(calls, RowsOf(rows, keys[g]));
    }
    if (forall r :: r in rows ==> Summable(r.value)) && Choosable(calls.mode, Numbered(rows, keys), |keys|) {
      forall key ensures RowsFit(calls, RowsOf(rows, key)) {
        forall r | r in RowsOf(rows, key) ensures Summable(r.value) { RowsOfAre(rows, key, r); }
        IndexIsFirst(keys, key);
      }
    }
  }

  /** Everything about one batch that does not depend on the accumulators. */
  lemma BatchNumbered(calls: Calls, rows: seq<KeyedRow>, batch: seq<KeyedRow>, index: map<string, nat>, before: seq<string>,
                      keys: seq<string>, ids: seq<nat>)
    requires KeysOf(rows, before) && before <= keys && Indexes(index, keys) && forall r :: r in rows ==> Summable(r.value)
    requires forall key :: key in keys <==> key in before || exists r :: r in batch && r.key == key
    requires |ids| == |batch| && forall i :: 0 <= i < |ids| ==> ids[i] == IndexIn(keys, batch[i].key)
    ensures KeysOf(rows + batch, keys)
    ensures Numbered(rows + batch, keys) == Numbered(rows, before) + Incoming(Some(ArgumentOf(batch)), ids)
    ensures AllFit(calls, rows + batch) <==>
            (forall i :: 0 <= i < |batch| ==> Summable(ArgumentOf(batch)[i])) &&
            Choosable(calls.mode, Numbered(rows, before) + Incoming(Some(ArgumentOf(batch)), ids), |keys|)
    ensures AllFit(calls, rows + batch) ==> forall r :: r in rows + batch ==> Summable(r.value)
  {
    IndexedKey(index, keys, "");
    NumberedBatch(rows, batch, before, keys, ids);
    KeysOfMore(rows, batch, before, keys);
    FitIff(calls, rows + batch, keys);
    BatchSummable(rows, batch);
  }

  lemma BatchSummable(rows: seq<KeyedRow>, batch: seq<KeyedRow>)
    requires forall r :: r in rows ==> Summable(r.value)
    ensures (forall r :: r in rows + batch ==> Summable(r.value)) <==> forall i :: 0 <= i < |batch| ==> Summable(ArgumentOf(batch)[i])
  {
    if forall r :: r in rows + batch ==> Summable(r.value) {
      forall i | 0 <= i < |batch| ensures Summable(ArgumentOf(batch)[i]) { assert batch[i] in rows + batch; }
    }
    if forall i :: 0 <= i < |batch| ==> Summable(ArgumentOf(batch)[i]) {
      forall r | r in rows + batch ensures Summable(r.value) {
        if r in batch {
          var i :| 0 <= i < |batch| && batch[i] == r;
          assert ArgumentOf(batch)[i] == r.value;
        }
      }
    }
  }

  predicate HasDouble(rows: seq<KeyedRow>) { exists i :: 0 <= i < |rows| && rows[i].value.Double? }

  lemma NumberedDouble(rows: seq<KeyedRow>, keys: seq<string>)
    ensures AnyDouble(Numbered(rows, keys)) <==> HasDouble(rows)
  {
    if HasDouble(rows) {
      var i :| 0 <= i < |rows| && rows[i].value.Double?;
      assert Numbered(rows, keys)[i].value.Double?;
    }
  }

  lemma SomeKeyHasDouble(rows: seq<KeyedRow>, keys: seq<string>)
    requires KeysOf(rows, keys)
    ensures HasDouble(rows) <==> exists g :: 0 <= g < |keys| && HasDouble(RowsOf(rows, keys[g]))
  {
    if HasDouble(rows) {
      var i :| 0 <= i < |rows| && rows[i].value.Double?;
      var key := rows[i].key;
      RowsOfAre(rows, key, rows[i]);
      IndexIsFirst(keys, key);
      var j :| 0 <= j < |RowsOf(rows, key)| && RowsOf(rows, key)[j] == rows[i];
    }
    if g :| 0 <= g < |keys| && HasDouble(RowsOf(rows, keys[g])) {
      var j :| 0 <= j < |RowsOf(rows, keys[g])| && RowsOf(rows, keys[g])[j].value.Double?;
      RowsOfAre(rows, keys[g], RowsOf(rows, keys[g])[j]);
      var i :| 0 <= i < |rows| && rows[i] == RowsOf(rows, keys[g])[j];
    }
  }

  // ----- the table ------------------------------------------------------------------------

  class InMemoryGroups {
    const calls: Calls
    const count: CountAccumulator
    const sum: SumAccumulator
    const choice: ChoiceAccumulator
    var keys: seq<string>
    var index: map<string, nat>
    /** The rows consumed so far. */
    ghost var rows: seq<KeyedRow>

    ghost function Parts(): set<object> { {this, count, sum, choice} }

    ghost predicate Valid()
      reads Parts()
    {
      && count.distinct == calls.distinct && sum.average == calls.average && choice.mode == calls.mode
      && Indexes(index, keys) && KeysOf(rows, keys)
      && (forall r :: r in rows ==> Summable(r.value))
      && Holds(|keys|, Numbered(rows, keys))
    }

    constructor (calls: Calls)
      ensures Valid() && rows == [] && this.calls == calls && fresh(Parts())
    {
      this.calls := calls;
      count := new CountAccumulator(calls.distinct);
      sum := new SumAccumulator(calls.average);
      choice := new ChoiceAccumulator(calls.mode);
      keys, index, rows := [], map[], [];
    }

    /** The number of a key; a key seen for the first time gets the next one. */
    method Number(key: string) returns (id: nat)
      requires Indexes(index, keys)
      modifies this`keys, this`index
      ensures Indexes(index, keys) && old(keys) <= keys && id < |keys| && keys[id] == key
      ensures keys == if key in old(keys) then old(keys) else old(keys) + [key]
    {
      IndexedKey(index, keys, key);
      if key !in index {
        index := index[key := |keys|];
        keys := keys + [key];
      }
      id := index[key];
    }

    /** Numbers the keys of a batch. */
    method Assign(batch: seq<KeyedRow>) returns (ids: seq<nat>)
      requires Indexes(index, keys)
      modifies this`keys, this`index
      ensures Indexes(index, keys) && old(keys) <= keys
      ensures forall key :: key in keys <==> key in old(keys) || exists r :: r in batch && r.key == key
      ensures Known(batch, old(keys)) ==> keys == old(keys)
      ensures |ids| == |batch| && forall i :: 0 <= i < |ids| ==> ids[i] == IndexIn(keys, batch[i].key) < |keys|
    {
      ids := [];
      for row := 0 to |batch|
        invariant Indexes(index, keys) && old(keys) <= keys
        invariant forall key :: key in keys <==> key in old(keys) || exists i :: 0 <= i < row && batch[i].key == key
        invariant Known(batch, old(keys)) ==> keys == old(keys)
        invariant |ids| == row && forall i :: 0 <= i < row ==> ids[i] < |keys| && keys[ids[i]] == batch[i].key
      {
        var id := Number(batch[row].key);
        ids := ids + [id];
      }
      forall i | 0 <= i < |ids| ensures ids[i] == IndexIn(keys, batch[i].key) < |keys| { IndexedKey(index, keys, batch[i].key); }
    }

    /** The accumulators hold rows for a number of groups. */
    ghost predicate Holds(groups: nat, numbered: seq<Row>)
      reads count, sum, choice
    {
      && count.Valid() && |count.counts| == groups && count.rows == numbered
      && sum.Valid() && |sum.counts| == groups && sum.rows == sum.sources == numbered
      && choice.Valid() && |choice.chosen| == groups && choice.rows == numbered
    }

    method Grow(groups: nat, ghost before: nat, ghost numbered: seq<Row>)
      requires Holds(before, numbered) && before <= groups
      modifies count, sum, choice
      ensures Holds(groups, numbered)
    {
      count.Resize(groups);
      sum.Resize(groups);
      choice.Resize(groups);
    }

    method Feed(values: seq<Value>, ids: seq<nat>, ghost groups: nat, ghost numbered: seq<Row>) returns (ok: bool)
      requires Holds(groups, numbered) && |values| == |ids| && forall i :: 0 <= i < |ids| ==> ids[i] < groups
      modifies count, sum, choice
      ensures ok <==> (forall i :: 0 <= i < |values| ==> Summable(values[i])) &&
                      Choosable(choice.mode, numbered + Incoming(Some(values), ids), groups)
      ensures ok ==> Holds(groups, numbered + Incoming(Some(values), ids))
    {
      count.Consume(Some(values), ids);
      ok := sum.Consume(values, ids);
      if ok { ok := choice.Consume(values, ids); }
    }

    /** Folds a batch; fails exactly when a value cannot be summed or compared. */
    method Consume(batch: seq<KeyedRow>) returns (ok: bool)
      requires Valid()
      modifies Parts()
      ensures ok <==> AllFit(calls, old(rows) + batch)
      ensures ok ==> Valid() && rows == old(rows) + batch
      ensures old(keys) <= keys && (Known(batch, old(keys)) ==> keys == old(keys))
    {
      ghost var before := keys;
      var ids := Assign(batch);
      BatchNumbered(calls, rows, batch, index, before, keys, ids);
      Grow(|keys|, |before|, Numbered(rows, before));
      ok := Feed(ArgumentOf(batch), ids, |keys|, Numbered(rows, before));
      rows := rows + batch;
    }

    /** The emitted columns. */
    method Finish() returns (o: Output)
      requires Valid()
      ensures o.keys == keys && AllFit(calls, rows)
      ensures forall g :: 0 <= g < |keys| ==> IsRight(calls, CellsOf(o)[g], RowsOf(rows, keys[g]))
      ensures o.sums.IntColumn? <==> !calls.average && !HasDouble(rows)
    {
      var sums := sum.Finish();
      o := Columns(keys, count.counts, sums, choice.chosen);
      NumberedDouble(rows, keys);
      FitIff(calls, rows, keys);
      forall g | 0 <= g < |keys| ensures IsRight(calls, CellsOf(o)[g], RowsOf(rows, keys[g])) {
        NumberingDoesNotMatter(rows, keys, g);
        assert ChoiceOf(calls.mode, choice.rows, g) == Some(choice.chosen[g]);
      }
    }
  }
}
