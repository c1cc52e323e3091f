/** What an emitted row says about the rows of its group, in terms of the values
    themselves (src/query/AggregateRegistry.cpp). */
module EmittedRows {
  import opened Wrappers
  import opened Sequences
  import opened AggregateSpec
  import opened Grouping
  import opened Counting
  import opened Summing
  import opened KeyedGroups

  // ----- COUNT ----------------------------------------------------------------------

  predicate Counted(r: Row, g: nat) { r.group == g && !r.value.Nul? }

  /** A group has as many values as there are rows of the group that are not null. */
  lemma {:induction false} GroupSize(rows: seq<Row>, g: nat)
    ensures |GroupValues(rows, g)| == CountWhere(rows, r => Counted(r, g))
  {
    if rows != [] { GroupSize(rows[..|rows|-1], g); }
  }

  lemma {:induction false} StarRows(ids: seq<nat>, g: nat)
    ensures CountWhere(Incoming(None, ids), r => Counted(r, g)) == CountWhere(ids, id => id == g)
  {
    if ids != [] {
      var init := ids[..|ids|-1];
      StarRows(init, g);
      assert Incoming(None, ids)[..|ids|-1] == Incoming(None, init);
    }
  }

  /** COUNT(*) of a group is the number of its rows, whatever they hold. */
  lemma CountStar(counts: seq<nat>, seen: seq<set<Value>>, before: seq<Row>, ids: seq<nat>, g: nat)
    requires CountColumns(false, counts, seen, before + Incoming(None, ids)) && g < |counts|
    ensures counts[g] == |GroupValues(before, g)| + CountWhere(ids, id => id == g)
  {
    GroupValuesConcat(before, Incoming(None, ids), g);
    GroupSize(Incoming(None, ids), g);
    StarRows(ids, g);
  }

  predicate NotNull(r: KeyedRow) { !r.value.Nul? }

  lemma {:induction false} ValuesCount(rows: seq<KeyedRow>)
    ensures |ValuesOf(rows)| == CountWhere(rows, NotNull)
  {
    if rows != [] { ValuesCount(rows[..|rows|-1]); }
  }

  /** The values are those of the rows, without the nulls. */
  lemma {:induction false} ValuesAre(rows: seq<KeyedRow>, x: Value)
    ensures x in ValuesOf(rows) <==> !x.Nul? && exists r :: r in rows && r.value == x
  {
    if rows != [] {
      var init, last := rows[..|rows|-1], rows[|rows|-1];
      ValuesAre(init, x);
      assert rows == init + [last];
      assert last in rows;
    }
  }

  function Elements(xs: seq<Value>): set<Value> { set x | x in xs }

  // ----- SUM and AVG ------------------------------------------------------------------

  /** A total of n values lies between n times a lower and n times an upper bound. */
  lemma {:induction false} TotalBetween(xs: seq<Value>, low: real, high: real)
    requires forall x :: x in xs ==> low <= AsReal(x) <= high
    ensures (|xs| as real) * low <= RealTotal(xs) <= (|xs| as real) * high
  {
    if xs != [] {
      var init, last := xs[..|xs|-1], xs[|xs|-1];
      TotalBetween(init, low, high);
      assert last in xs;
      OneMore(|init|, low);
      OneMore(|init|, high);
    }
  }

  lemma OneMore(n: nat, x: real)
    ensures ((n + 1) as real) * x == (n as real) * x + x
  {
  }

  /** The mean lies between the smallest and the largest value. */
  lemma MeanBetween(xs: seq<Value>, low: real, high: real)
    requires xs != [] && forall x :: x in xs ==> low <= AsReal(x) <= high
    ensures DoubleCell(true, xs).Some? && low <= DoubleCell(true, xs).value <= high
  {
    TotalBetween(xs, low, high);
    Divided(RealTotal(xs), |xs| as real, low, high);
  }

  lemma Scaled(n: real, a: real, b: real)
    requires n > 0.0 && n * a <= n * b
    ensures a <= b
  {
  }

  lemma Divided(total: real, n: real, low: real, high: real)
    requires n > 0.0 && n * low <= total <= n * high
    ensures low <= total / n <= high
  {
    Scaled(n, low, total / n);
    Scaled(n, total / n, high);
  }

  /** On integers the two sums are the same number. */
  lemma {:induction false} TotalsAgree(xs: seq<Value>)
    requires forall x :: x in xs ==> x.Int?
    ensures RealTotal(xs) == IntTotal(xs) as real
  {
    if xs != [] {
      TotalsAgree(xs[..|xs|-1]);
      assert xs[|xs|-1] in xs;
    }
  }

  // ----- when the aggregates can be computed ------------------------------------------

  /** MIN and MAX of more than one value succeed exactly when the values are all numbers,
      all texts or all booleans; everything else succeeds always. */
  lemma ChoiceSucceedsIff(mode: Mode, xs: seq<Value>)
    requires NonNull(xs)
    ensures Choose(mode, xs).Some? <==>
            || mode == FIRST || mode == LAST || |xs| <= 1
            || (forall x :: x in xs ==> x.Int? || x.Double?) || (forall x :: x in xs ==> x.Text?) || (forall x :: x in xs ==> x.Bool?)
  {
    ChooseIsRight(mode, xs);
    if |xs| > 1 && Choose(mode, xs).Some? && (mode == MIN || mode == MAX) {
      forall x | x in xs ensures x.Text? <==> xs[0].Text? { SameKind(mode, xs, x); }
      forall x | x in xs ensures x.Bool? <==> xs[0].Bool? { SameKind(mode, xs, x); }
      forall x | x in xs ensures x.Text? || x.Bool? || x.Int? || x.Double? { SameKind(mode, xs, x); }
    }
  }

  lemma SameKind(mode: Mode, xs: seq<Value>, x: Value)
    requires Homogeneous(mode, xs) && (mode == MIN || mode == MAX) && |xs| > 1 && x in xs
    ensures (x.Text? <==> xs[0].Text?) && (x.Bool? <==> xs[0].Bool?) && (x.Text? || x.Bool? || x.Int? || x.Double?)
  {
    var i :| 0 <= i < |xs| && xs[i] == x;
    assert !Throws(mode, xs[if i == 0 then 1 else i], xs[0]);
  }

  /** A query with one call of each kind over an argument can be aggregated exactly when
      the argument is null or a number in every row. */
  lemma AllFitIff(calls: Calls, rows: seq<KeyedRow>)
    ensures AllFit(calls, rows) <==> forall r :: r in rows ==> r.value.Nul? || r.value.Int? || r.value.Double?
  {
    if AllFit(calls, rows) {
      SummableRows(calls, rows);
      assert forall r :: r in rows ==> Summable(r.value);
    }
    if forall r :: r in rows ==> r.value.Nul? || r.value.Int? || r.value.Double? {
      forall key ensures RowsFit(calls, RowsOf(rows, key)) {
        var group := RowsOf(rows, key);
        forall r | r in group ensures Summable(r.value) && (r.value.Nul? || Numeric(r.value)) { RowsOfAre(rows, key, r); }
        forall x | x in ValuesOf(group) ensures x.Int? || x.Double? { ValuesAre(group, x); }
        ValuesOfNonNull(group);
        ChoiceSucceedsIff(calls.mode, ValuesOf(group));
      }
    }
  }

  // ----- the emitted row ----------------------------------------------------------------

  /** COUNT of an emitted row: the rows that are not null, or their distinct values. */
  lemma EmittedCount(calls: Calls, c: Cell, rows: seq<KeyedRow>)
    requires IsRight(calls, c, rows)
    ensures c.count == if calls.distinct then |Elements(ValuesOf(rows))| else CountWhere(rows, NotNull)
  {
    var xs := ValuesOf(rows);
    ValuesCount(rows);
    DistinctCountIsSize(xs);
    forall x ensures x in Keys(xs) <==> x in Elements(xs) { KeysAreTheElements(xs, x); }
    assert Keys(xs) == Elements(xs);
  }

  /** MIN, MAX, FIRST or LAST of an emitted row: null without values, otherwise the
      value at the position that the call asks for. */
  lemma EmittedChoice(calls: Calls, c: Cell, rows: seq<KeyedRow>)
    requires IsRight(calls, c, rows)
    ensures c.chosen.Nul? <==> ValuesOf(rows) == []
    ensures !c.chosen.Nul? ==> exists k :: ChosenAt(calls.mode, ValuesOf(rows), k) && c.chosen == ValuesOf(rows)[k]
  {
    ValuesOfNonNull(rows);
    ChooseIsRight(calls.mode, ValuesOf(rows));
  }

  /** AVG of an emitted row lies between any bounds of its values. */
  lemma EmittedMean(calls: Calls, c: Cell, rows: seq<KeyedRow>, low: real, high: real)
    requires IsRight(calls, c, rows) && calls.average
    requires forall r :: r in rows && NotNull(r) ==> low <= AsReal(r.value) <= high
    ensures c.sum.Floating? && (c.sum.doubles.None? <==> CountWhere(rows, NotNull) == 0)
    ensures c.sum.doubles.Some? ==> low <= c.sum.doubles.value <= high
  {
    var xs := ValuesOf(rows);
    ValuesCount(rows);
    forall x | x in xs ensures low <= AsReal(x) <= high { ValuesAre(rows, x); }
    if xs != [] { MeanBetween(xs, low, high); }
  }

  /** SUM of integers is the exact total wherever that fits in 64 bits. */
  lemma EmittedSum(calls: Calls, c: Cell, rows: seq<KeyedRow>)
    requires IsRight(calls, c, rows) && !calls.average && ValuesOf(rows) != []
    requires forall r :: r in rows && NotNull(r) ==> r.value.Int?
    requires Fits(IntTotal(ValuesOf(rows)))
    ensures c.sum.Whole? ==> c.sum.ints.Some? && c.sum.ints.value as real == RealTotal(ValuesOf(rows))
    ensures c.sum.Floating? ==> c.sum.doubles == Some(RealTotal(ValuesOf(rows)))
  {
    var xs := ValuesOf(rows);
    forall x | x in xs ensures x.Int? { ValuesAre(rows, x); }
    TotalsAgree(xs);
    WrapIsExact(xs);
  }
}
