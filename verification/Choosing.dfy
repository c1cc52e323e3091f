/** The MIN, MAX, FIRST and LAST accumulator: one chosen value per group. */
module Choosing {
  import opened Wrappers
  import opened AggregateSpec
  import opened Grouping

  /** What a group chose from its rows; None when a comparison threw. */
  function ChoiceOf(mode: Mode, rows: seq<Row>, g: nat): Option<Value> { Choose(mode, GroupValues(rows, g)) }

  ghost predicate ChoiceColumns(mode: Mode, chosen: seq<Value>, rows: seq<Row>) {
    && InRange(rows, |chosen|)
    && forall g :: 0 <= g < |chosen| ==> ChoiceOf(mode, rows, g) == Some(chosen[g])
  }

  /** Every group could be chosen without an error. */
  ghost predicate Choosable(mode: Mode, rows: seq<Row>, groups: nat) {
    forall g :: 0 <= g < groups ==> ChoiceOf(mode, rows, g).Some?
  }

  lemma ChooseMore(mode: Mode, xs: seq<Value>, x: Value)
    ensures Choose(mode, xs + [x]) == if Choose(mode, xs).None? then None else Offer(mode, Choose(mode, xs).value, x)
  {
    assert (xs + [x])[..|xs|] == xs;
  }

  /** A group's choice after one more row. */
  lemma ChoiceAfterRow(mode: Mode, rows: seq<Row>, row: Row, h: nat)
    requires ChoiceOf(mode, rows, h).Some?
    ensures ChoiceOf(mode, rows + [row], h) ==
            if h == row.group then Offer(mode, ChoiceOf(mode, rows, h).value, row.value) else ChoiceOf(mode, rows, h)
  {
    var xs := GroupValues(rows, h);
    GroupValuesMore(rows, row, h);
    ChooseMore(mode, xs, row.value);
  }

  lemma ChoiceOneRow(mode: Mode, chosen: seq<Value>, rows: seq<Row>, row: Row)
    requires ChoiceColumns(mode, chosen, rows) && row.group < |chosen|
    ensures var o := Offer(mode, chosen[row.group], row.value);
            if o.Some? then ChoiceColumns(mode, chosen[row.group := o.value], rows + [row])
            else ChoiceOf(mode, rows + [row], row.group).None?
  {
    InRangeMore(rows, row, |chosen|);
    forall h | 0 <= h < |chosen|
      ensures ChoiceOf(mode, rows + [row], h) == if h == row.group then Offer(mode, chosen[h], row.value) else Some(chosen[h])
    {
      ChoiceAfterRow(mode, rows, row, h);
    }
  }

  /** A failed choice stays failed whatever follows. */
  lemma FailurePersists(mode: Mode, xs: seq<Value>, ys: seq<Value>)
    requires NonNull(xs) && NonNull(ys) && Choose(mode, xs).None?
    ensures Choose(mode, xs + ys).None?
  {
    ChooseConcat(mode, xs, ys);
  }

  lemma ChoiceFails(mode: Mode, rows: seq<Row>, more: seq<Row>, g: nat)
    requires ChoiceOf(mode, rows, g).None?
    ensures ChoiceOf(mode, rows + more, g).None?
  {
    GroupValuesConcat(rows, more, g);
    GroupValuesNonNull(rows, g);
    GroupValuesNonNull(more, g);
    FailurePersists(mode, GroupValues(rows, g), GroupValues(more, g));
  }

  lemma RowFails(mode: Mode, base: seq<Row>, incoming: seq<Row>, n: nat, g: nat)
    requires n <= |incoming| && ChoiceOf(mode, base + incoming[..n], g).None?
    ensures ChoiceOf(mode, base + incoming, g).None?
  {
    assert base + incoming[..n] + incoming[n..] == base + incoming;
    ChoiceFails(mode, base + incoming[..n], incoming[n..], g);
  }

  /** A target's choice after source group k is its choice before, combined with
      the choice of that group. */
  lemma ChoiceMerges(mode: Mode, base: seq<Row>, rows: seq<Row>, mapping: seq<nat>, k: nat, t: nat)
    requires k < |mapping|
    ensures ChoiceOf(mode, Joined(base, rows, mapping, k + 1), t) ==
            if Feeds(mapping, k, t) then Combine(mode, ChoiceOf(mode, Joined(base, rows, mapping, k), t), ChoiceOf(mode, rows, k))
            else ChoiceOf(mode, Joined(base, rows, mapping, k), t)
  {
    JoinedInOrder(base, rows, mapping, k, t);
    GroupValuesNonNull(Joined(base, rows, mapping, k), t);
    GroupValuesNonNull(rows, k);
    if Feeds(mapping, k, t) { ChooseConcat(mode, GroupValues(Joined(base, rows, mapping, k), t), GroupValues(rows, k)); }
  }

  /** The rows after every number of source groups. */
  type Joining = nat -> seq<Row>

  function JoinedFrom(base: seq<Row>, rows: seq<Row>, mapping: seq<nat>): Joining {
    (k: nat) => if k <= |mapping| then Joined(base, rows, mapping, k) else []
  }

  /** Each source group is combined into its target. */
  ghost predicate JoinSteps(mode: Mode, joined: Joining, rows: seq<Row>, mapping: seq<nat>, groups: nat) {
    forall k: nat :: k < |mapping| ==> JoinStep(mode, joined(k), joined(k + 1), rows, mapping, k, groups)
  }

  ghost predicate JoinStep(mode: Mode, before: seq<Row>, after: seq<Row>, rows: seq<Row>, mapping: seq<nat>, k: nat, groups: nat)
    requires k < |mapping|
  {
    && InRange(after, groups)
    && forall t :: 0 <= t < groups ==>
         ChoiceOf(mode, after, t) ==
         if Feeds(mapping, k, t) then Combine(mode, ChoiceOf(mode, before, t), ChoiceOf(mode, rows, k)) else ChoiceOf(mode, before, t)
  }

  lemma JoinedSteps(mode: Mode, base: seq<Row>, rows: seq<Row>, mapping: seq<nat>, groups: nat)
    requires Targets(mapping, groups) && InRange(base, groups)
    ensures JoinSteps(mode, JoinedFrom(base, rows, mapping), rows, mapping, groups)
  {
    forall k | 0 <= k < |mapping|
      ensures JoinStep(mode, Joined(base, rows, mapping, k), Joined(base, rows, mapping, k + 1), rows, mapping, k, groups)
    {
      JoinedInRange(base, rows, mapping, k + 1, groups);
      forall t ensures ChoiceOf(mode, Joined(base, rows, mapping, k + 1), t) ==
                       if Feeds(mapping, k, t) then Combine(mode, ChoiceOf(mode, Joined(base, rows, mapping, k), t), ChoiceOf(mode, rows, k))
                       else ChoiceOf(mode, Joined(base, rows, mapping, k), t)
      {
        ChoiceMerges(mode, base, rows, mapping, k, t);
      }
    }
  }

  /** A failed target stays failed. */
  lemma {:induction false} MergeFails(mode: Mode, joined: Joining, rows: seq<Row>, mapping: seq<nat>, groups: nat, k: nat, t: nat)
    requires k <= |mapping| && t < groups && JoinSteps(mode, joined, rows, mapping, groups) && ChoiceOf(mode, joined(k), t).None?
    ensures ChoiceOf(mode, joined(|mapping|), t).None?
    decreases |mapping| - k
  {
    if k < |mapping| {
      assert JoinStep(mode, joined(k), joined(k + 1), rows, mapping, k, groups);
      MergeFails(mode, joined, rows, mapping, groups, k + 1, t);
    }
  }

  /** `after` is what chosen values and source group k, with the choice `candidate`, come to. */
  ghost predicate TakesOver(mode: Mode, chosen: seq<Value>, after: seq<Row>, mapping: seq<nat>, k: nat, candidate: Value)
    requires k < |mapping|
  {
    forall h :: 0 <= h < |chosen| ==> ChoiceOf(mode, after, h) == if Feeds(mapping, k, h) then Offer(mode, chosen[h], candidate) else Some(chosen[h])
  }

  lemma ChoiceOneGroup(mode: Mode, chosen: seq<Value>, after: seq<Row>, mapping: seq<nat>, k: nat, candidate: Value)
    requires k < |mapping| && Targets(mapping, |chosen|) && TakesOver(mode, chosen, after, mapping, k, candidate) && InRange(after, |chosen|)
    ensures var t := mapping[k];
            if t == SKIP_GROUP then ChoiceColumns(mode, chosen, after)
            else if Offer(mode, chosen[t], candidate).Some? then ChoiceColumns(mode, chosen[t := Offer(mode, chosen[t], candidate).value], after)
            else ChoiceOf(mode, after, t).None?
  {
  }

  class ChoiceAccumulator {
    const mode: Mode
    var chosen: seq<Value>
    ghost var rows: seq<Row>

    ghost predicate Valid()
      reads this
    {
      ChoiceColumns(mode, chosen, rows)
    }

    constructor (mode: Mode)
      ensures Valid() && this.mode == mode && chosen == [] && rows == []
    {
      this.mode := mode;
      chosen, rows := [], [];
    }

    method Resize(groups: nat)
      requires Valid()
      modifies this
      ensures Valid() && rows == old(rows)
      ensures |chosen| == if groups > old(|chosen|) then groups else old(|chosen|)
    {
      forall g | |chosen| <= g ensures GroupValues(rows, g) == [] { NoRowsOutOfRange(rows, |chosen|, g); }
      if |chosen| < groups { InRangeGrows(rows, |chosen|, groups); }
      if |chosen| < groups { chosen := chosen + seq(groups - |chosen|, _ => Nul); }
    }

    /** Replaces the current value of a group when the offered one is better;
        false when they cannot be compared. */
    method Take(g: nat, value: Value) returns (ok: bool)
      requires g < |chosen|
      modifies this`chosen
      ensures ok <==> Offer(mode, old(chosen[g]), value).Some?
      ensures chosen == if ok then old(chosen)[g := Offer(mode, old(chosen[g]), value).value] else old(chosen)
    {
      var take := chosen[g].Nul?;
      if value.Nul? { return true; }
      if !take {
        if mode == FIRST { return true; }
        if mode == LAST {
          take := true;
        } else {
          if !Comparable(value, chosen[g]) { return false; }
          take := if mode == MIN then Compare(value, chosen[g]) < 0 else Compare(value, chosen[g]) > 0;
        }
      }
      if take { chosen := chosen[g := value]; }
      return true;
    }

    /** Fails exactly when some group would have to compare values of different
        kinds; the rows before the failing one stay accumulated. */
    method Consume(values: seq<Value>, ids: seq<nat>) returns (ok: bool)
      requires Valid() && |values| == |ids|
      requires forall i :: 0 <= i < |ids| ==> ids[i] < |chosen|
      modifies this
      ensures Valid() && |chosen| == old(|chosen|)
      ensures ok <==> Choosable(mode, old(rows) + Incoming(Some(values), ids), |chosen|)
      ensures ok ==> rows == old(rows) + Incoming(Some(values), ids)
      ensures exists i :: 0 <= i <= |ids| && rows == old(rows) + Incoming(Some(values), ids)[..i]
    {
      ghost var incoming := Incoming(Some(values), ids);
      ghost var base := rows;
      for row := 0 to |ids|
        invariant Valid() && |chosen| == old(|chosen|)
        invariant rows == base + incoming[..row]
      {
        assert rows + [incoming[row]] == base + incoming[..row + 1];
        var taken := TakeRow(ids[row], values[row]);
        if !taken {
          RowFails(mode, base, incoming, row + 1, ids[row]);
          return false;
        }
      }
      assert incoming[..|ids|] == incoming;
      return true;
    }

    /** One iteration of the row loop. */
    method TakeRow(g: nat, value: Value) returns (ok: bool)
      requires Valid() && g < |chosen|
      modifies this
      ensures Valid() && |chosen| == old(|chosen|)
      ensures ok ==> rows == old(rows) + [Row(g, value)]
      ensures !ok ==> rows == old(rows) && ChoiceOf(mode, rows + [Row(g, value)], g).None?
    {
      ChoiceOneRow(mode, chosen, rows, Row(g, value));
      ok := Take(g, value);
      if ok { rows := rows + [Row(g, value)]; }
    }

    /** Offers one source group's choice to its target. */
    method MergeGroup(candidate: Value, mapping: seq<nat>, group: nat, ghost after: seq<Row>) returns (ok: bool)
      requires group < |mapping| && Targets(mapping, |chosen|) && TakesOver(mode, chosen, after, mapping, group, candidate) && InRange(after, |chosen|)
      modifies this`chosen
      ensures |chosen| == old(|chosen|)
      ensures ok ==> ChoiceColumns(mode, chosen, after)
      ensures !ok ==> chosen == old(chosen) && mapping[group] < |chosen| && ChoiceOf(mode, after, mapping[group]).None?
    {
      ChoiceOneGroup(mode, chosen, after, mapping, group, candidate);
      if mapping[group] == SKIP_GROUP { return true; }
      ok := Take(mapping[group], candidate);
    }

    /** Merging is offering the other accumulator's groups, one after the other, under
        the new group ids; the values taken over are moved out of `other`. */
    method Merge(other: ChoiceAccumulator, mapping: seq<nat>) returns (ok: bool)
      requires Valid() && other != this && other.Valid() && other.mode == mode
      requires |mapping| == |other.chosen| && Targets(mapping, |chosen|)
      modifies this, other`chosen
      ensures Valid() && |chosen| == old(|chosen|)
      ensures ok <==> Choosable(mode, Joined(old(rows), other.rows, mapping, |mapping|), |chosen|)
      ensures ok ==> rows == Joined(old(rows), other.rows, mapping, |mapping|)
      ensures exists k :: 0 <= k <= |mapping| && rows == Joined(old(rows), other.rows, mapping, k)
    {
      JoinedSteps(mode, rows, other.rows, mapping, |chosen|);
      ok := MergeGroups(other, mapping, JoinedFrom(rows, other.rows, mapping));
    }

    method MergeGroups(other: ChoiceAccumulator, mapping: seq<nat>, ghost joined: Joining) returns (ok: bool)
      requires Valid() && other != this && other.Valid() && other.mode == mode
      requires |mapping| == |other.chosen| && Targets(mapping, |chosen|)
      requires joined(0) == rows && JoinSteps(mode, joined, other.rows, mapping, |chosen|)
      modifies this, other`chosen
      ensures Valid() && |chosen| == old(|chosen|)
      ensures ok <==> Choosable(mode, joined(|mapping|), |chosen|)
      ensures ok ==> rows == joined(|mapping|)
      ensures exists k :: 0 <= k <= |mapping| && rows == joined(k)
    {
      ghost var theirs, candidates := other.rows, other.chosen;
      for group := 0 to |mapping|
        invariant |chosen| == old(|chosen|) && |other.chosen| == |mapping| && other.rows == theirs
        invariant Valid() && rows == joined(group)
        invariant forall g :: group <= g < |mapping| ==> other.chosen[g] == candidates[g]
      {
        var candidate := other.chosen[group];
        assert ChoiceOf(mode, theirs, group) == Some(candidate);
        assert JoinStep(mode, rows, joined(group + 1), theirs, mapping, group, |chosen|);
        var taken := MergeGroup(candidate, mapping, group, joined(group + 1));
        if !taken {
          MergeFails(mode, joined, theirs, mapping, |chosen|, group + 1, mapping[group]);
          return false;
        }
        rows := joined(group + 1);
        if mapping[group] != SKIP_GROUP {
          var moved: Value := *;
          other.chosen := other.chosen[group := moved];
        }
      }
      return true;
    }
  }
}
