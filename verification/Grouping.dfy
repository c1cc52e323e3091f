/** Rows tagged with group ids, and what merging with a group mapping does to them. */
module Grouping {
  import opened Wrappers
  import opened AggregateSpec

  datatype Row = Row(group: nat, value: Value)

  /** The mapping value that drops a source group. */
  const SKIP_GROUP: nat := 0xffff_ffff

  /** Every row belongs to one of the groups. */
  ghost predicate InRange(rows: seq<Row>, groups: nat) {
    rows == [] || (InRange(rows[..|rows|-1], groups) && rows[|rows|-1].group < groups)
  }

  lemma InRangeMore(rows: seq<Row>, r: Row, groups: nat)
    ensures InRange(rows + [r], groups) <==> InRange(rows, groups) && r.group < groups
  {
    assert (rows + [r])[..|rows|] == rows;
  }

  lemma {:induction false} InRangeConcat(a: seq<Row>, b: seq<Row>, groups: nat)
    requires InRange(a, groups) && InRange(b, groups)
    ensures InRange(a + b, groups)
  {
    if b == [] {
      assert a + b == a;
    } else {
      assert (a + b)[..|a + b|-1] == a + b[..|b|-1];
      InRangeConcat(a, b[..|b|-1], groups);
    }
  }

  lemma {:induction false} InRangeGrows(rows: seq<Row>, groups: nat, more: nat)
    requires InRange(rows, groups) && groups <= more
    ensures InRange(rows, more)
  {
    if rows != [] { InRangeGrows(rows[..|rows|-1], groups, more); }
  }

  /** The non-null values a group received, in order. */
  function GroupValues(rows: seq<Row>, g: nat): seq<Value> {
    if rows == [] then []
    else
      var last := rows[|rows|-1];
      Extended(GroupValues(rows[..|rows|-1], g), last.value, last.group == g && !last.value.Nul?)
  }

  function Extended<T>(xs: seq<T>, x: T, more: bool): seq<T> { if more then xs + [x] else xs }

  lemma {:induction false} GroupValuesNonNull(rows: seq<Row>, g: nat)
    ensures NonNull(GroupValues(rows, g))
  {
    if rows != [] { GroupValuesNonNull(rows[..|rows|-1], g); }
  }

  lemma GroupValuesMore(rows: seq<Row>, r: Row, g: nat)
    ensures GroupValues(rows + [r], g) == if r.group == g && !r.value.Nul? then GroupValues(rows, g) + [r.value] else GroupValues(rows, g)
  {
    assert (rows + [r])[..|rows|] == rows;
  }

  lemma {:induction false} GroupValuesConcat(a: seq<Row>, b: seq<Row>, g: nat)
    ensures GroupValues(a + b, g) == GroupValues(a, g) + GroupValues(b, g)
  {
    if b == [] {
      assert a + b == a;
    } else {
      assert (a + b)[..|a + b|-1] == a + b[..|b|-1];
      GroupValuesConcat(a, b[..|b|-1], g);
    }
  }

  lemma {:induction false} NoRowsOutOfRange(rows: seq<Row>, groups: nat, g: nat)
    requires InRange(rows, groups) && g >= groups
    ensures GroupValues(rows, g) == []
  {
    if rows != [] { NoRowsOutOfRange(rows[..|rows|-1], groups, g); }
  }

  /** The rows of one batch; without an argument column every row counts. */
  function Incoming(values: Option<seq<Value>>, ids: seq<nat>): (rows: seq<Row>)
    requires values.Some? ==> |values.value| == |ids|
    ensures |rows| == |ids|
  {
    seq(|ids|, i requires 0 <= i < |ids| => Row(ids[i], if values.Some? then values.value[i] else Bool(true)))
  }

  // ----- merging -----------------------------------------------------------------

  /** The rows of the source groups below k, renumbered; skipped groups are dropped. */
  function RemapBelow(rows: seq<Row>, mapping: seq<nat>, k: nat): seq<Row>
    requires k <= |mapping|
  {
    if rows == [] then []
    else
      var last := rows[|rows|-1];
      if last.group < k && mapping[last.group] != SKIP_GROUP then RemapBelow(rows[..|rows|-1], mapping, k) + [Row(mapping[last.group], last.value)]
      else RemapBelow(rows[..|rows|-1], mapping, k)
  }

  function Remap(rows: seq<Row>, mapping: seq<nat>): seq<Row> { RemapBelow(rows, mapping, |mapping|) }

  predicate Targets(mapping: seq<nat>, groups: nat) {
    forall k :: 0 <= k < |mapping| ==> mapping[k] == SKIP_GROUP || mapping[k] < groups
  }

  /** No two source groups go to the same target. */
  predicate Injective(mapping: seq<nat>) {
    forall i, j :: 0 <= i < j < |mapping| && mapping[i] != SKIP_GROUP ==> mapping[i] != mapping[j]
  }

  lemma {:induction false} RemapNone(rows: seq<Row>, mapping: seq<nat>)
    ensures RemapBelow(rows, mapping, 0) == []
  {
    if rows != [] { RemapNone(rows[..|rows|-1], mapping); }
  }

  /** Source group k reaches target t. */
  predicate Feeds(mapping: seq<nat>, k: nat, t: nat)
    requires k < |mapping|
  {
    mapping[k] == t && t != SKIP_GROUP
  }

  /** The three sequences of a merge step after one more row: which of them the
      row's value is appended to. */
  lemma RemapShapes(rows: seq<Row>, mapping: seq<nat>, k: nat, t: nat)
    requires k < |mapping| && rows != []
    ensures var init, last := rows[..|rows|-1], rows[|rows|-1];
            var hit := !last.value.Nul? && last.group <= k && Feeds(mapping, last.group, t);
            && FromBelow(rows, mapping, k + 1, t) == Extended(FromBelow(init, mapping, k + 1, t), last.value, hit)
            && FromBelow(rows, mapping, k, t) == Extended(FromBelow(init, mapping, k, t), last.value, hit && last.group < k)
            && FromGroup(rows, mapping, k, t) == Extended(FromGroup(init, mapping, k, t), last.value, hit && last.group == k)
  {
    RemapLast(rows, mapping, k, t);
    RemapLast(rows, mapping, k + 1, t);
  }

  /** What target t receives from the source groups below k, and from group k. */
  function FromBelow(rows: seq<Row>, mapping: seq<nat>, k: nat, t: nat): seq<Value>
    requires k <= |mapping|
  {
    GroupValues(RemapBelow(rows, mapping, k), t)
  }

  function FromGroup(rows: seq<Row>, mapping: seq<nat>, k: nat, t: nat): seq<Value>
    requires k < |mapping|
  {
    if Feeds(mapping, k, t) then GroupValues(rows, k) else []
  }

  lemma AddsOne(s: seq<Value> -> Summary, a: seq<Value>, x: Value, hit: bool)
    requires AddsUp(s)
    ensures s(Extended(a, x, hit)) == if hit then Plus(s(a), Single(x)) else s(a)
  {
  }

  /** One more source group adds its values to its target, whatever the order
      they arrive in: for every summary that adds up over the values. */
  lemma {:induction false} RemapAddsUp(s: seq<Value> -> Summary, rows: seq<Row>, mapping: seq<nat>, k: nat, t: nat)
    requires AddsUp(s) && k < |mapping|
    ensures s(FromBelow(rows, mapping, k + 1, t)) == Plus(s(FromBelow(rows, mapping, k, t)), s(FromGroup(rows, mapping, k, t)))
  {
    if rows != [] {
      var init, last := rows[..|rows|-1], rows[|rows|-1];
      var hit := !last.value.Nul? && last.group <= k && Feeds(mapping, last.group, t);
      var a, b, e := FromBelow(init, mapping, k + 1, t), FromBelow(init, mapping, k, t), FromGroup(init, mapping, k, t);
      RemapAddsUp(s, init, mapping, k, t);
      RemapShapes(rows, mapping, k, t);
      AddsOne(s, a, last.value, hit);
      AddsOne(s, b, last.value, hit && last.group < k);
      AddsOne(s, e, last.value, hit && last.group == k);
      PlusCommutes(s(b), s(e), Single(last.value));
    }
  }

  ghost predicate AddsUp(s: seq<Value> -> Summary) {
    s([]) == Summary(0, {}, 0, 0.0) && forall xs, x :: s(xs + [x]) == Plus(s(xs), Single(x))
  }

  lemma RemapAdds(rows: seq<Row>, mapping: seq<nat>, k: nat, t: nat)
    requires k < |mapping|
    ensures Summarize(FromBelow(rows, mapping, k + 1, t)) ==
            Plus(Summarize(FromBelow(rows, mapping, k, t)), Summarize(FromGroup(rows, mapping, k, t)))
  {
    assert AddsUp(Summarize) by {
      forall xs, x ensures Summarize(xs + [x]) == Plus(Summarize(xs), Single(x)) { SummarizeAppend(xs, x); }
    }
    RemapAddsUp(Summarize, rows, mapping, k, t);
  }

  lemma RemapLast(rows: seq<Row>, mapping: seq<nat>, k: nat, t: nat)
    requires rows != [] && k <= |mapping|
    ensures var last := rows[|rows|-1];
            GroupValues(RemapBelow(rows, mapping, k), t) ==
            Extended(GroupValues(RemapBelow(rows[..|rows|-1], mapping, k), t), last.value,
                     last.group < k && Feeds(mapping, last.group, t) && !last.value.Nul?)
  {
    var last := rows[|rows|-1];
    if last.group < k && mapping[last.group] != SKIP_GROUP {
      GroupValuesMore(RemapBelow(rows[..|rows|-1], mapping, k), Row(mapping[last.group], last.value), t);
    }
  }

  /** With an injective mapping a target receives the values of its one source
      group, in their order. */
  lemma {:induction false} RemapKeepsOrder(rows: seq<Row>, mapping: seq<nat>, k: nat, t: nat)
    requires k < |mapping| && Injective(mapping)
    ensures Feeds(mapping, k, t) ==> FromBelow(rows, mapping, k, t) == []
    ensures FromBelow(rows, mapping, k + 1, t) ==
            if Feeds(mapping, k, t) then FromGroup(rows, mapping, k, t) else FromBelow(rows, mapping, k, t)
  {
    if rows != [] {
      RemapKeepsOrder(rows[..|rows|-1], mapping, k, t);
      RemapShapes(rows, mapping, k, t);
    }
  }

  /** The rows of an accumulator that has merged the source groups below k. */
  function Merged(base: seq<Row>, rows: seq<Row>, mapping: seq<nat>, k: nat): seq<Row>
    requires k <= |mapping|
  {
    base + RemapBelow(rows, mapping, k)
  }

  lemma MergedNone(base: seq<Row>, rows: seq<Row>, mapping: seq<nat>)
    ensures Merged(base, rows, mapping, 0) == base
  {
    RemapNone(rows, mapping);
  }

  lemma MergedSummary(base: seq<Row>, rows: seq<Row>, mapping: seq<nat>, k: nat, t: nat)
    requires k < |mapping|
    ensures Summarize(GroupValues(Merged(base, rows, mapping, k + 1), t)) ==
            Plus(Summarize(GroupValues(Merged(base, rows, mapping, k), t)), Summarize(FromGroup(rows, mapping, k, t)))
  {
    GroupValuesConcat(base, RemapBelow(rows, mapping, k), t);
    GroupValuesConcat(base, RemapBelow(rows, mapping, k + 1), t);
    SummarizeConcat(GroupValues(base, t), FromBelow(rows, mapping, k, t));
    SummarizeConcat(GroupValues(base, t), FromBelow(rows, mapping, k + 1, t));
    RemapAdds(rows, mapping, k, t);
    PlusAssociates(Summarize(GroupValues(base, t)), Summarize(FromBelow(rows, mapping, k, t)), Summarize(FromGroup(rows, mapping, k, t)));
  }

  lemma MergedInOrder(base: seq<Row>, rows: seq<Row>, mapping: seq<nat>, k: nat, t: nat)
    requires k < |mapping| && Injective(mapping)
    ensures GroupValues(Merged(base, rows, mapping, k + 1), t) ==
            if Feeds(mapping, k, t) then GroupValues(Merged(base, rows, mapping, k), t) + GroupValues(rows, k)
            else GroupValues(Merged(base, rows, mapping, k), t)
  {
    GroupValuesConcat(base, RemapBelow(rows, mapping, k), t);
    GroupValuesConcat(base, RemapBelow(rows, mapping, k + 1), t);
    RemapKeepsOrder(rows, mapping, k, t);
    NothingBefore(GroupValues(base, t), FromBelow(rows, mapping, k, t));
  }

  lemma NothingBefore(a: seq<Value>, b: seq<Value>)
    ensures b == [] ==> a + b == a
  {
  }

  /** The rows of one source group, renumbered. */
  function GroupRows(rows: seq<Row>, k: nat, t: nat): seq<Row> {
    if rows == [] then []
    else Extended(GroupRows(rows[..|rows|-1], k, t), Row(t, rows[|rows|-1].value), rows[|rows|-1].group == k)
  }

  /** The rows of an accumulator that took over the source groups below k one after
      the other, each renumbered; skipped groups are dropped. */
  function Joined(base: seq<Row>, rows: seq<Row>, mapping: seq<nat>, k: nat): seq<Row>
    requires k <= |mapping|
  {
    if k == 0 then base
    else if mapping[k - 1] == SKIP_GROUP then Joined(base, rows, mapping, k - 1)
    else Joined(base, rows, mapping, k - 1) + GroupRows(rows, k - 1, mapping[k - 1])
  }

  lemma {:induction false} GroupRowsOf(rows: seq<Row>, k: nat, t: nat, h: nat)
    ensures GroupValues(GroupRows(rows, k, t), h) == if h == t then GroupValues(rows, k) else []
  {
    if rows != [] {
      var init, last := rows[..|rows|-1], rows[|rows|-1];
      GroupRowsOf(init, k, t, h);
      if last.group == k { GroupValuesMore(GroupRows(init, k, t), Row(t, last.value), h); }
    }
  }

  lemma {:induction false} GroupRowsInRange(rows: seq<Row>, k: nat, t: nat, groups: nat)
    requires t < groups
    ensures InRange(GroupRows(rows, k, t), groups)
  {
    if rows != [] {
      var init, last := rows[..|rows|-1], rows[|rows|-1];
      GroupRowsInRange(init, k, t, groups);
      if last.group == k {
        InRangeMore(GroupRows(init, k, t), Row(t, last.value), groups);
      }
    }
  }

  lemma {:induction false} JoinedInRange(base: seq<Row>, rows: seq<Row>, mapping: seq<nat>, k: nat, groups: nat)
    requires k <= |mapping| && Targets(mapping, groups) && InRange(base, groups)
    ensures InRange(Joined(base, rows, mapping, k), groups)
  {
    if k > 0 {
      JoinedInRange(base, rows, mapping, k - 1, groups);
      if mapping[k - 1] != SKIP_GROUP {
        GroupRowsInRange(rows, k - 1, mapping[k - 1], groups);
        InRangeConcat(Joined(base, rows, mapping, k - 1), GroupRows(rows, k - 1, mapping[k - 1]), groups);
      }
    }
  }

  /** A target receives source group k behind the groups before it, whatever the mapping. */
  lemma JoinedInOrder(base: seq<Row>, rows: seq<Row>, mapping: seq<nat>, k: nat, t: nat)
    requires k < |mapping|
    ensures GroupValues(Joined(base, rows, mapping, k + 1), t) ==
            if Feeds(mapping, k, t) then GroupValues(Joined(base, rows, mapping, k), t) + GroupValues(rows, k)
            else GroupValues(Joined(base, rows, mapping, k), t)
  {
    if mapping[k] != SKIP_GROUP {
      GroupValuesConcat(Joined(base, rows, mapping, k), GroupRows(rows, k, mapping[k]), t);
      GroupRowsOf(rows, k, mapping[k], t);
      NothingBefore(GroupValues(Joined(base, rows, mapping, k), t), GroupValues(GroupRows(rows, k, mapping[k]), t));
    }
  }

  /** With an injective mapping a group has its values in the order of the rows themselves. */
  lemma {:induction false} JoinedIsMerged(base: seq<Row>, rows: seq<Row>, mapping: seq<nat>, k: nat, t: nat)
    requires k <= |mapping| && Injective(mapping)
    ensures GroupValues(Joined(base, rows, mapping, k), t) == GroupValues(Merged(base, rows, mapping, k), t)
  {
    if k == 0 {
      MergedNone(base, rows, mapping);
    } else {
      JoinedIsMerged(base, rows, mapping, k - 1, t);
      JoinedLikeMerged(base, rows, mapping, k - 1, t);
    }
  }

  lemma JoinedLikeMerged(base: seq<Row>, rows: seq<Row>, mapping: seq<nat>, k: nat, t: nat)
    requires k < |mapping| && Injective(mapping)
    requires GroupValues(Joined(base, rows, mapping, k), t) == GroupValues(Merged(base, rows, mapping, k), t)
    ensures GroupValues(Joined(base, rows, mapping, k + 1), t) == GroupValues(Merged(base, rows, mapping, k + 1), t)
  {
    JoinedInOrder(base, rows, mapping, k, t);
    MergedInOrder(base, rows, mapping, k, t);
  }

  lemma {:induction false} RemapInRange(rows: seq<Row>, mapping: seq<nat>, k: nat, groups: nat)
    requires k <= |mapping| && Targets(mapping, groups)
    ensures InRange(RemapBelow(rows, mapping, k), groups)
  {
    if rows != [] {
      var init, last := rows[..|rows|-1], rows[|rows|-1];
      RemapInRange(init, mapping, k, groups);
      if last.group < k && mapping[last.group] != SKIP_GROUP {
        InRangeMore(RemapBelow(init, mapping, k), Row(mapping[last.group], last.value), groups);
      }
    }
  }

  lemma MergedInRange(base: seq<Row>, rows: seq<Row>, mapping: seq<nat>, k: nat, groups: nat)
    requires k <= |mapping| && Targets(mapping, groups) && InRange(base, groups)
    ensures InRange(Merged(base, rows, mapping, k), groups)
  {
    RemapInRange(rows, mapping, k, groups);
    InRangeConcat(base, RemapBelow(rows, mapping, k), groups);
  }

  /** The partition law: rows `a` followed by rows `b`, where the groups of `b` are
      numbered separately, give every group its values of `a` followed by those
      of its source group in `b`. */
  lemma {:induction false} PartitionLaw(a: seq<Row>, b: seq<Row>, mapping: seq<nat>, g: nat)
    requires g < |mapping| && Injective(mapping) && mapping[g] != SKIP_GROUP
    ensures GroupValues(a + Remap(b, mapping), mapping[g]) == GroupValues(a, mapping[g]) + GroupValues(b, g)
  {
    GroupValuesConcat(a, Remap(b, mapping), mapping[g]);
    RemapTarget(b, mapping, g);
  }

  lemma {:induction false} RemapTarget(rows: seq<Row>, mapping: seq<nat>, g: nat)
    requires g < |mapping| && Injective(mapping) && mapping[g] != SKIP_GROUP
    ensures GroupValues(Remap(rows, mapping), mapping[g]) == GroupValues(rows, g)
  {
    if rows != [] {
      var last := rows[|rows|-1];
      RemapTarget(rows[..|rows|-1], mapping, g);
      RemapLast(rows, mapping, |mapping|, mapping[g]);
      if last.group >= |mapping| { assert last.group != g; }
    }
  }
}
