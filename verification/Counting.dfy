/** The COUNT accumulator: per-group state in columns, updated a batch at a time.
    The rows it was fed are ghost state; `Valid` says that the columns are the
    aggregate of those rows. */
module Counting {
  import opened Wrappers
  import opened AggregateSpec
  import opened Grouping

  /** The columns of a count are the counts of the rows. */
  ghost predicate CountColumns(distinct: bool, counts: seq<nat>, seen: seq<set<Value>>, rows: seq<Row>) {
    && InRange(rows, |counts|)
    && (forall g :: 0 <= g < |counts| ==> counts[g] == CountOf(distinct, GroupValues(rows, g)))
    && (distinct ==> |seen| == |counts| && forall g :: 0 <= g < |counts| ==> seen[g] == Keys(GroupValues(rows, g)))
  }

  ghost predicate CountCell(distinct: bool, count: nat, keys: set<Value>, xs: seq<Value>) {
    count == CountOf(distinct, xs) && (distinct ==> keys == Keys(xs))
  }

  /** One more value for a group. */
  lemma CountCellAppend(distinct: bool, count: nat, keys: set<Value>, xs: seq<Value>, x: Value)
    requires CountCell(distinct, count, keys, xs)
    ensures CountCell(distinct, if distinct && x in keys then count else count + 1, keys + {x}, xs + [x])
  {
    assert (xs + [x])[..|xs|] == xs;
  }

  /** Every cell of a column after one more row: only the row's own group changes. */
  lemma CellsAfterRow<C>(cell: (C, seq<Value>) -> bool, column: seq<C>, rows: seq<Row>, row: Row, c: C)
    requires row.group < |column| && !row.value.Nul? && cell(c, GroupValues(rows, row.group) + [row.value])
    requires forall h :: 0 <= h < |column| ==> cell(column[h], GroupValues(rows, h))
    ensures forall h :: 0 <= h < |column| ==> cell(column[row.group := c][h], GroupValues(rows + [row], h))
  {
    forall h | 0 <= h < |column| ensures cell(column[row.group := c][h], GroupValues(rows + [row], h)) {
      GroupValuesMore(rows, row, h);
    }
  }

  /** Only the row's own group changes, and only for a non-null value. */
  lemma CountOneRow(distinct: bool, counts: seq<nat>, seen: seq<set<Value>>, rows: seq<Row>, row: Row, count: nat, keys: set<Value>)
    requires CountColumns(distinct, counts, seen, rows) && row.group < |counts| && !row.value.Nul?
    requires CountCell(distinct, count, keys, GroupValues(rows, row.group) + [row.value])
    ensures var g := row.group; CountColumns(distinct, counts[g := count], if distinct then seen[g := keys] else seen, rows + [row])
  {
    InRangeMore(rows, row, |counts|);
    CellsAfterRow((c: nat, xs) => c == CountOf(distinct, xs), counts, rows, row, count);
    if distinct { CellsAfterRow((c: set<Value>, xs) => c == Keys(xs), seen, rows, row, keys); }
  }

  lemma CountNullRow(distinct: bool, counts: seq<nat>, seen: seq<set<Value>>, rows: seq<Row>, row: Row)
    requires CountColumns(distinct, counts, seen, rows) && row.group < |counts| && row.value.Nul?
    ensures CountColumns(distinct, counts, seen, rows + [row])
  {
    InRangeMore(rows, row, |counts|);
    forall h | 0 <= h < |counts| ensures GroupValues(rows + [row], h) == GroupValues(rows, h) { GroupValuesMore(rows, row, h); }
  }

  /** The columns after one row, as the row loop updates them. */
  lemma CountRow(distinct: bool, counts: seq<nat>, seen: seq<set<Value>>, rows: seq<Row>, row: Row)
    requires CountColumns(distinct, counts, seen, rows) && row.group < |counts|
    ensures var g, x := row.group, row.value;
            if x.Nul? then CountColumns(distinct, counts, seen, rows + [row])
            else CountColumns(distinct, counts[g := counts[g] + if distinct && x in seen[g] then 0 else 1],
                              if distinct then seen[g := seen[g] + {x}] else seen, rows + [row])
  {
    if row.value.Nul? {
      CountNullRow(distinct, counts, seen, rows, row);
    } else if distinct {
      CountKeyRow(counts, seen, rows, row);
    } else {
      CountValueRow(counts, seen, rows, row);
    }
  }

  lemma CountValueRow(counts: seq<nat>, seen: seq<set<Value>>, rows: seq<Row>, row: Row)
    requires CountColumns(false, counts, seen, rows) && row.group < |counts| && !row.value.Nul?
    ensures CountColumns(false, counts[row.group := counts[row.group] + 1], seen, rows + [row])
  {
    CountCellAppend(false, counts[row.group], {}, GroupValues(rows, row.group), row.value);
    CountOneRow(false, counts, seen, rows, row, counts[row.group] + 1, {});
  }

  lemma CountKeyRow(counts: seq<nat>, seen: seq<set<Value>>, rows: seq<Row>, row: Row)
    requires CountColumns(true, counts, seen, rows) && row.group < |counts| && !row.value.Nul?
    ensures var g, x := row.group, row.value;
            CountColumns(true, counts[g := counts[g] + if x in seen[g] then 0 else 1], seen[g := seen[g] + {x}], rows + [row])
  {
    var g, x := row.group, row.value;
    CountCellAppend(true, counts[g], seen[g], GroupValues(rows, g), x);
    CountOneRow(true, counts, seen, rows, row, counts[g] + if x in seen[g] then 0 else 1, seen[g] + {x});
  }

  /** One source group adds its count, or its keys, to its target's. */
  lemma CountOneTarget(distinct: bool, base: seq<Row>, rows: seq<Row>, mapping: seq<nat>, k: nat, h: nat)
    requires k < |mapping|
    ensures var before, after := GroupValues(Merged(base, rows, mapping, k), h), GroupValues(Merged(base, rows, mapping, k + 1), h);
            && CountOf(distinct, after) == (if !Feeds(mapping, k, h) then CountOf(distinct, before)
                                            else if distinct then |Keys(before) + Keys(GroupValues(rows, k))|
                                            else |before| + |GroupValues(rows, k)|)
            && Keys(after) == (if Feeds(mapping, k, h) then Keys(before) + Keys(GroupValues(rows, k)) else Keys(before))
  {
    MergedSummary(base, rows, mapping, k, h);
    var before := Keys(GroupValues(Merged(base, rows, mapping, k), h));
    assert before + {} == before;
    DistinctCountIsSize(GroupValues(Merged(base, rows, mapping, k), h));
    DistinctCountIsSize(GroupValues(Merged(base, rows, mapping, k + 1), h));
  }

  /** The columns after one source group, as the loop of `merge` updates them. */
  lemma CountOneGroup(distinct: bool, counts: seq<nat>, seen: seq<set<Value>>, base: seq<Row>, rows: seq<Row>, mapping: seq<nat>, k: nat)
    requires k < |mapping| && Targets(mapping, |counts|) && InRange(base, |counts|)
    requires CountColumns(distinct, counts, seen, Merged(base, rows, mapping, k))
    ensures var t, xs, after := mapping[k], GroupValues(rows, k), Merged(base, rows, mapping, k + 1);
            if t == SKIP_GROUP then CountColumns(distinct, counts, seen, after)
            else if !distinct then CountColumns(distinct, counts[t := counts[t] + |xs|], seen, after)
            else CountColumns(distinct, counts[t := |seen[t] + Keys(xs)|], seen[t := seen[t] + Keys(xs)], after)
  {
    var t, xs, after := mapping[k], GroupValues(rows, k), Merged(base, rows, mapping, k + 1);
    var counts' := if t == SKIP_GROUP then counts else if distinct then counts[t := |seen[t] + Keys(xs)|] else counts[t := counts[t] + |xs|];
    var seen' := if t == SKIP_GROUP || !distinct then seen else seen[t := seen[t] + Keys(xs)];
    MergedInRange(base, rows, mapping, k + 1, |counts|);
    forall h | 0 <= h < |counts|
      ensures counts'[h] == CountOf(distinct, GroupValues(after, h))
      ensures distinct ==> seen'[h] == Keys(GroupValues(after, h))
    {
      CountOneTarget(distinct, base, rows, mapping, k, h);
    }
  }

  lemma UpdateTwice<T>(xs: seq<T>, k: nat, a: T, b: T)
    requires k < |xs|
    ensures xs[k := a][k := b] == xs[k := b]
  {
  }

  /** COUNT(*), COUNT(x), COUNT(DISTINCT x). */
  class CountAccumulator {
    const distinct: bool
    var counts: seq<nat>
    var seen: seq<set<Value>>
    ghost var rows: seq<Row>

    ghost predicate Valid()
      reads this
    {
      CountColumns(distinct, counts, seen, rows)
    }

    constructor (distinct: bool)
      ensures Valid() && this.distinct == distinct && counts == [] && rows == []
    {
      this.distinct := distinct;
      counts, seen, rows := [], [], [];
    }

    method Resize(groups: nat)
      requires Valid()
      modifies this
      ensures Valid() && rows == old(rows) && old(counts) <= counts
      ensures |counts| == if groups > old(|counts|) then groups else old(|counts|)
    {
      forall g | |counts| <= g ensures GroupValues(rows, g) == [] { NoRowsOutOfRange(rows, |counts|, g); }
      if |counts| < groups { InRangeGrows(rows, |counts|, groups); }
      if distinct && |seen| < groups { seen := seen + seq(groups - |seen|, _ => {}); }
      if |counts| < groups { counts := counts + seq(groups - |counts|, _ => 0); }
    }

    /** One iteration of the row loop. */
    method Note(g: nat, value: Value)
      requires Valid() && g < |counts|
      modifies this
      ensures Valid() && |counts| == old(|counts|) && rows == old(rows) + [Row(g, value)]
    {
      CountRow(distinct, counts, seen, rows, Row(g, value));
      if !value.Nul? { Increment(g, value); }
      rows := rows + [Row(g, value)];
    }

    /** Counts a value for a group, in DISTINCT mode only the first time. */
    method Increment(g: nat, value: Value)
      requires g < |counts| && (distinct ==> |seen| == |counts|)
      modifies this`counts, this`seen
      ensures counts == old(counts)[g := old(counts)[g] + if distinct && value in old(seen)[g] then 0 else 1]
      ensures seen == if distinct then old(seen)[g := old(seen)[g] + {value}] else old(seen)
    {
      if !distinct {
        counts := counts[g := counts[g] + 1];
      } else if value !in seen[g] {
        seen := seen[g := seen[g] + {value}];
        counts := counts[g := counts[g] + 1];
      } else {
        assert seen[g] + {value} == seen[g];
      }
    }

    /** `values` is None for COUNT(*), which is never DISTINCT. */
    method Consume(values: Option<seq<Value>>, ids: seq<nat>)
      requires Valid() && (values.Some? ==> |values.value| == |ids|) && (values.None? ==> !distinct)
      requires forall i :: 0 <= i < |ids| ==> ids[i] < |counts|
      modifies this
      ensures Valid() && |counts| == old(|counts|) && rows == old(rows) + Incoming(values, ids)
    {
      ghost var incoming := Incoming(values, ids);
      for row := 0 to |ids|
        invariant Valid() && |counts| == old(|counts|) && rows == old(rows) + incoming[..row]
      {
        Note(ids[row], if values.Some? then values.value[row] else Bool(true));
      }
    }

    /** Adds one key to a group's distinct keys; `done` are those added before. */
    method Insert(target: nat, key: Value, ghost seen0: seq<set<Value>>, ghost counts0: seq<nat>, ghost done: set<Value>)
      requires WithKeys(seen0, counts0, target, done)
      modifies this`counts, this`seen
      ensures WithKeys(seen0, counts0, target, done + {key})
    {
      ghost var keys := seen0[target] + done;
      UpdateTwice(seen0, target, keys, keys + {key});
      UpdateTwice(counts0, target, |keys|, |keys + {key}|);
      assert seen0[target] + (done + {key}) == keys + {key};
      if key !in seen[target] {
        seen := seen[target := seen[target] + {key}];
        counts := counts[target := counts[target] + 1];
      } else {
        assert keys + {key} == keys;
      }
    }

    /** The columns `seen0` and `counts0` with more keys for one group. */
    ghost predicate WithKeys(seen0: seq<set<Value>>, counts0: seq<nat>, target: nat, keys: set<Value>)
      reads this
    {
      && target < |seen0| == |counts0|
      && seen == seen0[target := seen0[target] + keys] && counts == counts0[target := |seen0[target] + keys|]
    }

    /** The loop over one source group's distinct keys, in any order. */
    method MergeKeys(target: nat, keys: set<Value>)
      requires |seen| == |counts| && target < |counts| && counts[target] == |seen[target]|
      modifies this`counts, this`seen
      ensures WithKeys(old(seen), old(counts), target, keys)
    {
      ghost var done: set<Value> := {};
      var todo := keys;
      assert seen[target] + done == seen[target];
      while todo != {}
        invariant done + todo == keys && WithKeys(old(seen), old(counts), target, done)
        decreases todo
      {
        var key :| key in todo;
        Insert(target, key, old(seen), old(counts), done);
        todo, done := todo - {key}, done + {key};
      }
      assert done == keys;
    }

    /** Adds the count, or the distinct keys, of one source group to its target. */
    method MergeGroup(count: nat, keys: set<Value>, mapping: seq<nat>, group: nat, ghost base: seq<Row>, ghost theirs: seq<Row>)
      requires group < |mapping| && Targets(mapping, |counts|) && InRange(base, |counts|)
      requires CountColumns(distinct, counts, seen, Merged(base, theirs, mapping, group))
      requires count == CountOf(distinct, GroupValues(theirs, group)) && (distinct ==> keys == Keys(GroupValues(theirs, group)))
      modifies this`counts, this`seen
      ensures |counts| == old(|counts|) && CountColumns(distinct, counts, seen, Merged(base, theirs, mapping, group + 1))
    {
      CountOneGroup(distinct, counts, seen, base, theirs, mapping, group);
      var target := mapping[group];
      if target == SKIP_GROUP { return; }
      if !distinct {
        counts := counts[target := counts[target] + count];
      } else {
        DistinctCountIsSize(GroupValues(Merged(base, theirs, mapping, group), target));
        MergeKeys(target, keys);
      }
    }

    /** Merging is counting the other accumulator's rows under the new group ids. */
    method Merge(other: CountAccumulator, mapping: seq<nat>)
      requires Valid() && other != this && other.Valid() && other.distinct == distinct
      requires |mapping| == |other.counts| && Targets(mapping, |counts|)
      modifies this
      ensures Valid() && |counts| == old(|counts|) && rows == old(rows) + Remap(other.rows, mapping)
    {
      ghost var base := rows;
      MergedNone(base, other.rows, mapping);
      for group := 0 to |other.counts|
        invariant rows == base && |counts| == old(|counts|)
        invariant CountColumns(distinct, counts, seen, Merged(base, other.rows, mapping, group))
        invariant other.Valid() && other.counts == old(other.counts)
      {
        MergeGroup(other.counts[group], if distinct then other.seen[group] else {}, mapping, group, base, other.rows);
      }
      rows := rows + Remap(other.rows, mapping);
    }
  }
}
