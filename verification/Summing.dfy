/** The SUM and AVG accumulator: exact 64-bit sums while every value is an
    integer, doubles otherwise. */
module Summing {
  import opened Wrappers
  import opened AggregateSpec
  import opened Grouping

  /** The columns of a sum are the summaries of the rows; the integer sum wraps. */
  ghost predicate SumColumns(counts: seq<nat>, ints: seq<Int64>, reals: seq<real>, rows: seq<Row>) {
    && |ints| == |counts| && |reals| == |counts|
    && InRange(rows, |counts|)
    && forall g :: 0 <= g < |counts| ==> SumCell(counts[g], ints[g], reals[g], GroupValues(rows, g))
  }

  ghost predicate SumCell(count: nat, ints: Int64, reals: real, xs: seq<Value>) {
    count == |xs| && ints == Wrap(IntTotal(xs)) && reals == RealTotal(xs)
  }

  /** A double was fed to the accumulator. */
  ghost predicate AnyDouble(rows: seq<Row>) { exists i :: 0 <= i < |rows| && rows[i].value.Double? }

  predicate Summable(v: Value) { v.Nul? || Numeric(v) }

  function AddInt64(a: Int64, b: Int64): Int64 { Wrap(a + b) }

  lemma AnyDoubleConcat(a: seq<Row>, b: seq<Row>)
    ensures AnyDouble(a + b) <==> AnyDouble(a) || AnyDouble(b)
  {
    if AnyDouble(a) { var i :| 0 <= i < |a| && a[i].value.Double?; assert (a + b)[i].value.Double?; }
    if AnyDouble(b) { var i :| 0 <= i < |b| && b[i].value.Double?; assert (a + b)[|a| + i].value.Double?; }
  }

  lemma {:induction false} RemapAddsNoDouble(rows: seq<Row>, mapping: seq<nat>, k: nat)
    requires k <= |mapping| && AnyDouble(RemapBelow(rows, mapping, k))
    ensures AnyDouble(rows)
  {
    var init, last := rows[..|rows|-1], rows[|rows|-1];
    assert rows == init + [last];
    AnyDoubleConcat(init, [last]);
    var tail := if last.group < k && mapping[last.group] != SKIP_GROUP then [Row(mapping[last.group], last.value)] else [];
    AnyDoubleConcat(RemapBelow(init, mapping, k), tail);
    if AnyDouble(tail) {
      assert [last][0].value.Double?;
    } else {
      RemapAddsNoDouble(init, mapping, k);
    }
  }

  lemma MergedSources(rows: seq<Row>, sources: seq<Row>, otherRows: seq<Row>, otherSources: seq<Row>, mapping: seq<nat>)
    requires (AnyDouble(rows) ==> AnyDouble(sources)) && (AnyDouble(otherRows) ==> AnyDouble(otherSources))
    ensures AnyDouble(sources + otherSources) <==> AnyDouble(sources) || AnyDouble(otherSources)
    ensures AnyDouble(rows + Remap(otherRows, mapping)) ==> AnyDouble(sources + otherSources)
  {
    AnyDoubleConcat(sources, otherSources);
    AnyDoubleConcat(rows, Remap(otherRows, mapping));
    if AnyDouble(Remap(otherRows, mapping)) { RemapAddsNoDouble(otherRows, mapping, |mapping|); }
  }

  /** One more value for a group, as the row loop adds it. */
  lemma SumCellAppend(count: nat, ints: Int64, reals: real, xs: seq<Value>, x: Value)
    requires SumCell(count, ints, reals, xs) && Numeric(x)
    ensures SumCell(count + 1, if x.Double? then ints else AddInt64(ints, x.integer), reals + AsReal(x), xs + [x])
  {
    SummarizeAppend(xs, x);
    WrapAdds(IntTotal(xs), IntPart(x));
  }

  lemma WrapSum(u: int, v: int)
    ensures AddInt64(Wrap(u), Wrap(v)) == Wrap(u + v)
  {
    WrapAdds(v, Wrap(u));
    WrapAdds(u, v);
  }

  /** Two partial sums of one group. */
  lemma SumCellPlus(xs: seq<Value>, ys: seq<Value>, both: seq<Value>, count: nat, ints: Int64, reals: real, count': nat, ints': Int64, reals': real)
    requires Summarize(both) == Plus(Summarize(xs), Summarize(ys))
    requires SumCell(count, ints, reals, xs) && SumCell(count', ints', reals', ys)
    ensures SumCell(count + count', AddInt64(ints, ints'), reals + reals', both)
  {
    WrapSum(IntTotal(xs), IntTotal(ys));
  }

  /** A whole source group added to its target, as the merge loop adds it. */
  lemma SumCellMerge(base: seq<Row>, rows: seq<Row>, mapping: seq<nat>, k: nat, h: nat, count: nat, ints: Int64, reals: real,
                     count': nat, ints': Int64, reals': real)
    requires k < |mapping| && SumCell(count, ints, reals, GroupValues(Merged(base, rows, mapping, k), h))
    requires SumCell(count', ints', reals', GroupValues(rows, k))
    ensures if Feeds(mapping, k, h)
            then SumCell(count + count', AddInt64(ints, ints'), reals + reals', GroupValues(Merged(base, rows, mapping, k + 1), h))
            else SumCell(count, ints, reals, GroupValues(Merged(base, rows, mapping, k + 1), h))
  {
    var before, after := GroupValues(Merged(base, rows, mapping, k), h), GroupValues(Merged(base, rows, mapping, k + 1), h);
    MergedSummary(base, rows, mapping, k, h);
    if Feeds(mapping, k, h) {
      SumCellPlus(before, GroupValues(rows, k), after, count, ints, reals, count', ints', reals');
    } else {
      assert Summarize(after) == Summarize(before) by { assert Summarize(before).keys + {} == Summarize(before).keys; }
    }
  }

  /** Columns that agree, group by group, with some rows. */
  lemma SumColumnsFrom(counts: seq<nat>, ints: seq<Int64>, reals: seq<real>, rows: seq<Row>)
    requires |ints| == |counts| && |reals| == |counts| && InRange(rows, |counts|)
    requires forall g :: 0 <= g < |counts| ==> SumCell(counts[g], ints[g], reals[g], GroupValues(rows, g))
    ensures SumColumns(counts, ints, reals, rows)
  {
  }

  /** Only the row's own group changes, and only for a non-null value. */
  lemma SumOneRow(counts: seq<nat>, ints: seq<Int64>, reals: seq<real>, rows: seq<Row>, row: Row, count: nat, int64: Int64, sum: real)
    requires SumColumns(counts, ints, reals, rows) && row.group < |counts| && Numeric(row.value)
    requires SumCell(count, int64, sum, GroupValues(rows, row.group) + [row.value])
    ensures var g := row.group; SumColumns(counts[g := count], ints[g := int64], reals[g := sum], rows + [row])
  {
    var g := row.group;
    var counts', ints', reals' := counts[g := count], ints[g := int64], reals[g := sum];
    InRangeMore(rows, row, |counts|);
    forall h | 0 <= h < |counts'| ensures SumCell(counts'[h], ints'[h], reals'[h], GroupValues(rows + [row], h)) {
      GroupValuesMore(rows, row, h);
    }
  }

  lemma SumNullRow(counts: seq<nat>, ints: seq<Int64>, reals: seq<real>, rows: seq<Row>, row: Row)
    requires SumColumns(counts, ints, reals, rows) && row.group < |counts| && row.value.Nul?
    ensures SumColumns(counts, ints, reals, rows + [row])
  {
    InRangeMore(rows, row, |counts|);
    forall h | 0 <= h < |counts| ensures SumCell(counts[h], ints[h], reals[h], GroupValues(rows + [row], h)) {
      GroupValuesMore(rows, row, h);
    }
  }

  /** The columns after one number, as the row loop updates them. */
  lemma SumNumberRow(counts: seq<nat>, ints: seq<Int64>, reals: seq<real>, rows: seq<Row>, row: Row)
    requires SumColumns(counts, ints, reals, rows) && row.group < |counts| && Numeric(row.value)
    ensures var g, x := row.group, row.value;
            SumColumns(counts[g := counts[g] + 1], if x.Double? then ints else ints[g := AddInt64(ints[g], x.integer)],
                       reals[g := reals[g] + AsReal(x)], rows + [row])
  {
    var g, x := row.group, row.value;
    SumCellAppend(counts[g], ints[g], reals[g], GroupValues(rows, g), x);
    if x.Double? {
      SumOneRow(counts, ints, reals, rows, row, counts[g] + 1, ints[g], reals[g] + AsReal(x));
      assert ints[g := ints[g]] == ints;
    } else {
      SumOneRow(counts, ints, reals, rows, row, counts[g] + 1, AddInt64(ints[g], x.integer), reals[g] + AsReal(x));
    }
  }

  ghost predicate SumState(floating: bool, counts: seq<nat>, ints: seq<Int64>, reals: seq<real>, rows: seq<Row>, sources: seq<Row>) {
    && SumColumns(counts, ints, reals, rows)
    && (floating <==> AnyDouble(sources))
    && (AnyDouble(rows) ==> AnyDouble(sources))
  }

  /** The whole state after one row. */
  lemma SumStateAfterRow(floating: bool, counts: seq<nat>, ints: seq<Int64>, reals: seq<real>, rows: seq<Row>, sources: seq<Row>, row: Row,
                         floating': bool, counts': seq<nat>, ints': seq<Int64>, reals': seq<real>)
    requires SumState(floating, counts, ints, reals, rows, sources) && row.group < |counts| && Summable(row.value)
    requires row.value.Nul? ==> floating' == floating && counts' == counts && ints' == ints && reals' == reals
    requires !row.value.Nul? ==>
               && floating' == (floating || row.value.Double?)
               && counts' == counts[row.group := counts[row.group] + 1]
               && ints' == (if row.value.Double? then ints else ints[row.group := AddInt64(ints[row.group], row.value.integer)])
               && reals' == reals[row.group := reals[row.group] + AsReal(row.value)]
    ensures SumState(floating', counts', ints', reals', rows + [row], sources + [row])
  {
    DoubleAfterRow(rows, row);
    DoubleAfterRow(sources, row);
    if row.value.Nul? {
      SumNullRow(counts, ints, reals, rows, row);
    } else {
      SumNumberRow(counts, ints, reals, rows, row);
    }
  }

  /** The double flag after one more row. */
  lemma DoubleAfterRow(rows: seq<Row>, row: Row)
    ensures AnyDouble(rows + [row]) <==> AnyDouble(rows) || row.value.Double?
  {
    AnyDoubleConcat(rows, [row]);
    if row.value.Double? { assert [row][0].value.Double?; }
  }

  /** The columns after one source group. */
  lemma SumOneGroup(counts: seq<nat>, ints: seq<Int64>, reals: seq<real>, base: seq<Row>, rows: seq<Row>, mapping: seq<nat>, k: nat,
                    count: nat, int64: Int64, sum: real)
    requires k < |mapping| && Targets(mapping, |counts|) && InRange(base, |counts|)
    requires SumColumns(counts, ints, reals, Merged(base, rows, mapping, k)) && SumCell(count, int64, sum, GroupValues(rows, k))
    ensures var t, after := mapping[k], Merged(base, rows, mapping, k + 1);
            if t == SKIP_GROUP then SumColumns(counts, ints, reals, after)
            else SumColumns(counts[t := counts[t] + count], ints[t := AddInt64(ints[t], int64)], reals[t := reals[t] + sum], after)
  {
    var t, after := mapping[k], Merged(base, rows, mapping, k + 1);
    MergedInRange(base, rows, mapping, k + 1, |counts|);
    if t == SKIP_GROUP {
      forall h | 0 <= h < |counts| ensures SumCell(counts[h], ints[h], reals[h], GroupValues(after, h)) {
        SumCellMerge(base, rows, mapping, k, h, counts[h], ints[h], reals[h], count, int64, sum);
      }
    } else {
      var counts', ints', reals' := counts[t := counts[t] + count], ints[t := AddInt64(ints[t], int64)], reals[t := reals[t] + sum];
      forall h | 0 <= h < |counts'| ensures SumCell(counts'[h], ints'[h], reals'[h], GroupValues(after, h)) {
        SumCellMerge(base, rows, mapping, k, h, counts[h], ints[h], reals[h], count, int64, sum);
      }
      SumColumnsFrom(counts', ints', reals', after);
    }
  }

  /** The result of `finish`: a column of integers or a column of doubles. */
  datatype Column = IntColumn(ints: seq<Option<Int64>>) | DoubleColumn(doubles: seq<Option<real>>)

  function IntCell(xs: seq<Value>): Option<Int64> { if xs == [] then None else Some(Wrap(IntTotal(xs))) }

  function DoubleCell(average: bool, xs: seq<Value>): Option<real> {
    if xs == [] then None else Some(if average then RealTotal(xs) / (|xs| as real) else RealTotal(xs))
  }

  /** What SUM or AVG over rows must be: null for a group without values, the
      64-bit sum, the sum or the mean. */
  function SumOf(average: bool, floating: bool, rows: seq<Row>, groups: nat): Column {
    if !average && !floating then IntColumn(seq(groups, g requires 0 <= g => IntCell(GroupValues(rows, g))))
    else DoubleColumn(seq(groups, g requires 0 <= g => DoubleCell(average, GroupValues(rows, g))))
  }

  class SumAccumulator {
    const average: bool
    var floating: bool
    var counts: seq<nat>
    var integerSums: seq<Int64>
    var doubleSums: seq<real>
    /** The rows whose groups were kept, and every row fed to this accumulator or
        to one merged into it. */
    ghost var rows: seq<Row>
    ghost var sources: seq<Row>

    ghost predicate Valid()
      reads this
    {
      SumState(floating, counts, integerSums, doubleSums, rows, sources)
    }

    constructor (average: bool)
      ensures Valid() && this.average == average && counts == [] && rows == [] && sources == []
    {
      this.average := average;
      floating := false;
      counts, integerSums, doubleSums, rows, sources := [], [], [], [], [];
    }

    method Resize(groups: nat)
      requires Valid()
      modifies this
      ensures Valid() && rows == old(rows) && sources == old(sources)
      ensures |counts| == if groups > old(|counts|) then groups else old(|counts|)
    {
      if |counts| >= groups { return; }
      forall g | |counts| <= g ensures GroupValues(rows, g) == [] { NoRowsOutOfRange(rows, |counts|, g); }
      InRangeGrows(rows, |counts|, groups);
      var more := groups - |counts|;
      counts, integerSums, doubleSums := counts + seq(more, _ => 0), integerSums + seq(more, _ => 0), doubleSums + seq(more, _ => 0.0);
    }

    /** One iteration of the row loop, for a value that is null or a number. */
    method Add(g: nat, value: Value)
      requires Valid() && g < |counts| && Summable(value)
      modifies this
      ensures Valid() && |counts| == old(|counts|)
      ensures rows == old(rows) + [Row(g, value)] && sources == old(sources) + [Row(g, value)]
    {
      if !value.Nul? { AddNumber(g, value); }
      SumStateAfterRow(old(floating), old(counts), old(integerSums), old(doubleSums), rows, sources, Row(g, value),
                       floating, counts, integerSums, doubleSums);
      rows, sources := rows + [Row(g, value)], sources + [Row(g, value)];
    }

    method AddNumber(g: nat, value: Value)
      requires g < |counts| == |integerSums| == |doubleSums| && Numeric(value)
      modifies this`floating, this`integerSums, this`doubleSums, this`counts
      ensures floating == (old(floating) || value.Double?)
      ensures counts == old(counts)[g := old(counts)[g] + 1]
      ensures integerSums == if value.Double? then old(integerSums) else old(integerSums)[g := AddInt64(old(integerSums)[g], value.integer)]
      ensures doubleSums == old(doubleSums)[g := old(doubleSums)[g] + AsReal(value)]
    {
      if value.Double? {
        floating := true;
      } else {
        integerSums := integerSums[g := AddInt64(integerSums[g], value.integer)];
      }
      doubleSums := doubleSums[g := doubleSums[g] + AsReal(value)];
      counts := counts[g := counts[g] + 1];
    }

    /** Stops with an error at the first value that is neither null nor a number;
        the rows before it stay accumulated. */
    method Consume(values: seq<Value>, ids: seq<nat>) returns (ok: bool)
      requires Valid() && |values| == |ids|
      requires forall i :: 0 <= i < |ids| ==> ids[i] < |counts|
      modifies this
      ensures Valid() && |counts| == old(|counts|)
      ensures ok <==> forall i :: 0 <= i < |values| ==> Summable(values[i])
      ensures ok ==> rows == old(rows) + Incoming(Some(values), ids) && sources == old(sources) + Incoming(Some(values), ids)
      ensures !ok ==> exists i :: 0 <= i < |values| && !Summable(values[i]) && (forall j :: 0 <= j < i ==> Summable(values[j]))
                        && rows == old(rows) + Incoming(Some(values), ids)[..i] && sources == old(sources) + Incoming(Some(values), ids)[..i]
    {
      ghost var incoming := Incoming(Some(values), ids);
      for row := 0 to |ids|
        invariant Valid() && |counts| == old(|counts|)
        invariant rows == old(rows) + incoming[..row] && sources == old(sources) + incoming[..row]
        invariant forall j :: 0 <= j < row ==> Summable(values[j])
      {
        if !values[row].Nul? && !Numeric(values[row]) { return false; }
        Add(ids[row], values[row]);
        assert incoming[..row + 1] == incoming[..row] + [Row(ids[row], values[row])];
      }
      assert incoming[..|ids|] == incoming;
      return true;
    }

    /** Adds one source group to its target. */
    method MergeGroup(count: nat, integerSum: Int64, doubleSum: real, mapping: seq<nat>, group: nat, ghost base: seq<Row>, ghost theirs: seq<Row>)
      requires group < |mapping| && Targets(mapping, |counts|) && InRange(base, |counts|)
      requires SumColumns(counts, integerSums, doubleSums, Merged(base, theirs, mapping, group))
      requires SumCell(count, integerSum, doubleSum, GroupValues(theirs, group))
      modifies this`counts, this`integerSums, this`doubleSums
      ensures |counts| == old(|counts|) && SumColumns(counts, integerSums, doubleSums, Merged(base, theirs, mapping, group + 1))
    {
      SumOneGroup(counts, integerSums, doubleSums, base, theirs, mapping, group, count, integerSum, doubleSum);
      var target := mapping[group];
      if target == SKIP_GROUP { return; }
      counts := counts[target := counts[target] + count];
      integerSums := integerSums[target := AddInt64(integerSums[target], integerSum)];
      doubleSums := doubleSums[target := doubleSums[target] + doubleSum];
    }

    /** Merging sums the other accumulator's rows under the new group ids; the
        double flag is taken over even when every group is skipped. */
    method Merge(other: SumAccumulator, mapping: seq<nat>)
      requires Valid() && other != this && other.Valid()
      requires |mapping| == |other.counts| && Targets(mapping, |counts|)
      modifies this
      ensures Valid() && |counts| == old(|counts|)
      ensures rows == old(rows) + Remap(other.rows, mapping) && sources == old(sources) + other.sources
    {
      ghost var base := rows;
      MergedSources(rows, sources, other.rows, other.sources, mapping);
      MergedNone(base, other.rows, mapping);
      floating := floating || other.floating;
      for group := 0 to |other.counts|
        invariant rows == base && |counts| == old(|counts|) && floating == (old(floating) || other.floating)
        invariant sources == old(sources)
        invariant SumColumns(counts, integerSums, doubleSums, Merged(base, other.rows, mapping, group))
      {
        MergeGroup(other.counts[group], other.integerSums[group], other.doubleSums[group], mapping, group, base, other.rows);
      }
      rows, sources := rows + Remap(other.rows, mapping), sources + other.sources;
    }

    method Finish() returns (column: Column)
      requires Valid()
      ensures column == SumOf(average, AnyDouble(sources), rows, |counts|)
    {
      if !average && !floating {
        var ints: seq<Option<Int64>> := [];
        for group := 0 to |counts|
          invariant |ints| == group && forall g :: 0 <= g < group ==> ints[g] == IntCell(GroupValues(rows, g))
        {
          ints := ints + [if counts[group] == 0 then None else Some(integerSums[group])];
        }
        return IntColumn(ints);
      }
      var doubles: seq<Option<real>> := [];
      for group := 0 to |counts|
        invariant |doubles| == group && forall g :: 0 <= g < group ==> doubles[g] == DoubleCell(average, GroupValues(rows, g))
      {
        doubles := doubles + [if counts[group] == 0 then None
                              else Some(if average then doubleSums[group] / (counts[group] as real) else doubleSums[group])];
      }
      return DoubleColumn(doubles);
    }
  }

  // ----- overflow ---------------------------------------------------------------------------

  function GroupTotal(rows: seq<Row>, g: nat): int { IntTotal(GroupValues(rows, g)) }

  /** The addition that takes source group k over into group t, if it goes there. */
  predicate MergeAdditionFits(base: seq<Row>, rows: seq<Row>, mapping: seq<nat>, k: nat, t: nat)
    requires k < |mapping|
  {
    Feeds(mapping, k, t) ==> Fits(Wrap(GroupTotal(Merged(base, rows, mapping, k), t)) + Wrap(GroupTotal(rows, k)))
  }

  /** The exact sum of a group before each addition of the merge loop. */
  lemma MergedTotal(base: seq<Row>, rows: seq<Row>, mapping: seq<nat>, k: nat, t: nat)
    requires k < |mapping|
    ensures GroupTotal(Merged(base, rows, mapping, k + 1), t) ==
            GroupTotal(Merged(base, rows, mapping, k), t) + if Feeds(mapping, k, t) then GroupTotal(rows, k) else 0
  {
    MergedSummary(base, rows, mapping, k, t);
  }

  lemma MergeStepFits(base: seq<Row>, rows: seq<Row>, mapping: seq<nat>, k: nat, t: nat)
    requires k < |mapping| && Fits(GroupTotal(rows, k)) && Fits(GroupTotal(Merged(base, rows, mapping, k), t))
    ensures MergeAdditionFits(base, rows, mapping, k, t) <==> Fits(GroupTotal(Merged(base, rows, mapping, k + 1), t))
  {
    MergedTotal(base, rows, mapping, k, t);
    WrapIsExact(GroupValues(rows, k));
    WrapIsExact(GroupValues(Merged(base, rows, mapping, k), t));
  }

  /** Merging exact sums: no addition of the loop overflows exactly when every partial
      sum, over this accumulator's rows and the source groups before, fits in 64 bits. */
  lemma MergeNoOverflowIff(base: seq<Row>, rows: seq<Row>, mapping: seq<nat>, t: nat)
    requires Fits(GroupTotal(base, t)) && forall k :: 0 <= k < |mapping| ==> Fits(GroupTotal(rows, k))
    ensures (forall k :: 0 <= k < |mapping| ==> MergeAdditionFits(base, rows, mapping, k, t)) <==>
            forall k :: 0 <= k <= |mapping| ==> Fits(GroupTotal(Merged(base, rows, mapping, k), t))
  {
    var total := (k: nat) => if k <= |mapping| then GroupTotal(Merged(base, rows, mapping, k), t) else 0;
    var fits := (k: nat) => k < |mapping| && MergeAdditionFits(base, rows, mapping, k, t);
    MergedNone(base, rows, mapping);
    forall k: nat | k < |mapping| && Fits(total(k)) ensures fits(k) <==> Fits(total(k + 1)) { MergeStepFits(base, rows, mapping, k, t); }
    PartialSumsFit(total, fits, |mapping|);
    assert forall k :: 0 <= k < |mapping| ==> (fits(k) <==> MergeAdditionFits(base, rows, mapping, k, t));
    assert forall k :: 0 <= k <= |mapping| ==> total(k) == GroupTotal(Merged(base, rows, mapping, k), t);
  }

  // ----- partitioned against sequential evaluation -----------------------------------------

  /** Merging an accumulator with kept rows b and source rows sb into one with rows a
      and source rows sa gives the column of one sequential pass over the kept rows
      exactly when it averages, a kept row holds a double, or no source row does. */
  lemma MergedSumIsSequentialIff(average: bool, a: seq<Row>, sa: seq<Row>, b: seq<Row>, sb: seq<Row>, mapping: seq<nat>, groups: nat)
    requires (AnyDouble(a) ==> AnyDouble(sa)) && (AnyDouble(b) ==> AnyDouble(sb))
    ensures var kept := a + Remap(b, mapping);
            SumOf(average, AnyDouble(sa + sb), kept, groups) == SumOf(average, AnyDouble(kept), kept, groups)
            <==> average || AnyDouble(a) || AnyDouble(Remap(b, mapping)) || !(AnyDouble(sa) || AnyDouble(sb))
  {
    var kept := a + Remap(b, mapping);
    MergedSources(a, sa, b, sb, mapping);
    AnyDoubleConcat(a, Remap(b, mapping));
    if !average && AnyDouble(sa + sb) != AnyDouble(kept) {
      assert SumOf(average, AnyDouble(sa + sb), kept, groups).IntColumn? != SumOf(average, AnyDouble(kept), kept, groups).IntColumn?;
    }
  }

  /** It fails: merging a double whose group is skipped turns the column into
      doubles, where the sequential pass over the kept rows gives integers. */
  lemma SkippedDoubleShows()
    ensures var a, b, mapping := [Row(0, Int(1))], [Row(0, Double(0.5))], [SKIP_GROUP];
            var kept := a + Remap(b, mapping);
            && SumOf(false, AnyDouble(a + b), kept, 1) == DoubleColumn([Some(1.0)])
            && SumOf(false, AnyDouble(kept), kept, 1) == IntColumn([Some(1)])
  {
    var a, b, mapping := [Row(0, Int(1))], [Row(0, Double(0.5))], [SKIP_GROUP];
    assert b[..0] == [] && RemapBelow(b[..0], mapping, 1) == [];
    assert b[0].group < 1 && mapping[b[0].group] == SKIP_GROUP;
    assert Remap(b, mapping) == [];
    assert a + [] == a && !AnyDouble(a);
    assert (a + b)[1].value.Double?;
    GroupValuesMore([], a[0], 0);
    assert [] + a == a;
    assert GroupValues(a, 0) == [Int(1)] && [Int(1)][..0] == [];
    assert IntTotal([Int(1)]) == 1 && RealTotal([Int(1)]) == 1.0;
  }

  lemma {:induction false} IntegersSumToIntegers(xs: seq<Value>)
    requires forall x :: x in xs ==> x.Int?
    ensures RealTotal(xs) == IntTotal(xs) as real
  {
    if xs != [] { IntegersSumToIntegers(xs[..|xs|-1]); }
  }

  lemma {:induction false} GroupValuesOfIntegers(rows: seq<Row>, g: nat)
    requires !AnyDouble(rows) && forall i :: 0 <= i < |rows| ==> Summable(rows[i].value)
    ensures forall x :: x in GroupValues(rows, g) ==> x.Int?
  {
    if rows != [] {
      var init := rows[..|rows|-1];
      assert forall i :: 0 <= i < |init| ==> init[i] == rows[i];
      GroupValuesOfIntegers(init, g);
    }
  }

  /** Even then only the type of the column differs: a group whose total fits in
      64 bits has the same sum in both. */
  lemma SkippedDoubleChangesOnlyTheType(rows: seq<Row>, g: nat)
    requires !AnyDouble(rows) && forall i :: 0 <= i < |rows| ==> Summable(rows[i].value)
    requires INT64_MIN <= IntTotal(GroupValues(rows, g)) <= INT64_MAX
    ensures var i, d := IntCell(GroupValues(rows, g)), DoubleCell(false, GroupValues(rows, g));
            (i.None? <==> d.None?) && (i.Some? ==> d.value == i.value as real)
  {
    GroupValuesOfIntegers(rows, g);
    IntegersSumToIntegers(GroupValues(rows, g));
    WrapIsExact(GroupValues(rows, g));
  }
}
