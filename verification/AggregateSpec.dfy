/** What the SQL aggregates mean: functions of the sequence of values a group
    received, and the algebra that lets two partial results be combined
    (src/query/AggregateRegistry.cpp, src/query/executor/AggregateValue.cpp). */
module AggregateSpec {
  import opened Wrappers

  const INT64_MIN: int := -0x8000_0000_0000_0000
  const INT64_MAX: int := 0x7fff_ffff_ffff_ffff

  type Int64 = x: int | INT64_MIN <= x <= INT64_MAX

  /** One column value. Doubles are ideal reals; `Opaque` is a nested value. */
  datatype Value = Nul | Int(integer: Int64) | Double(number: real) | Bool(flag: bool) | Text(text: string) | Opaque(rendering: string)

  predicate Numeric(v: Value) { v.Int? || v.Double? }

  function AsReal(v: Value): real { if v.Int? then v.integer as real else if v.Double? then v.number else 0.0 }

  // ----- comparison -----------------------------------------------------------

  /** Values of the same orderable kind; comparing anything else throws. */
  predicate Comparable(a: Value, b: Value) {
    (Numeric(a) && Numeric(b)) || (a.Text? && b.Text?) || (a.Bool? && b.Bool?)
  }

  function CompareText(a: string, b: string): int {
    if a == [] && b == [] then 0
    else if a == [] then -1
    else if b == [] then 1
    else if a[0] != b[0] then (if a[0] < b[0] then -1 else 1)
    else CompareText(a[1..], b[1..])
  }

  /** Negative, zero or positive. */
  function Compare(a: Value, b: Value): int
    requires Comparable(a, b)
  {
    if Numeric(a) then (if AsReal(a) < AsReal(b) then -1 else if AsReal(a) > AsReal(b) then 1 else 0)
    else if a.Text? then CompareText(a.text, b.text)
    else (if a.flag then 1 else 0) - (if b.flag then 1 else 0)
  }

  lemma {:induction false} CompareTextIsAnOrder(a: string, b: string, c: string)
    ensures CompareText(a, b) == -CompareText(b, a)
    ensures CompareText(a, b) <= 0 && CompareText(b, c) <= 0 ==> CompareText(a, c) <= 0
    ensures CompareText(a, b) <= 0 && CompareText(b, c) < 0 ==> CompareText(a, c) < 0
    ensures CompareText(a, b) < 0 && CompareText(b, c) <= 0 ==> CompareText(a, c) < 0
    decreases |a| + |b| + |c|
  {
    if a != [] && b != [] {
      CompareTextIsAnOrder(a[1..], b[1..], if c != [] then c[1..] else c);
    }
  }

  /** The lexicographic order: a proper prefix, or a smaller character at the first
      difference. */
  ghost predicate TextBelow(a: string, b: string) {
    exists n :: 0 <= n <= |a| && n < |b| && a[..n] == b[..n] && (n < |a| ==> a[n] < b[n])
  }

  lemma {:induction false} CompareTextIsLexicographic(a: string, b: string)
    ensures CompareText(a, b) < 0 <==> TextBelow(a, b)
    ensures CompareText(a, b) == 0 <==> a == b
  {
    if a != [] && b != [] && a[0] == b[0] {
      CompareTextIsLexicographic(a[1..], b[1..]);
      assert a == [a[0]] + a[1..] && b == [b[0]] + b[1..];
      if n :| 0 <= n <= |a| && n < |b| && a[..n] == b[..n] && (n < |a| ==> a[n] < b[n]) {
        assert a[1..][..n - 1] == a[..n][1..] && b[1..][..n - 1] == b[..n][1..];
      }
      if n :| 0 <= n <= |a[1..]| && n < |b[1..]| && a[1..][..n] == b[1..][..n] && (n < |a[1..]| ==> a[1..][n] < b[1..][n]) {
        assert a[..n + 1] == [a[0]] + a[1..][..n] && b[..n + 1] == [b[0]] + b[1..][..n];
      }
    } else if b != [] {
      assert a[..0] == b[..0];
    }
  }

  /** The sign of a comparison: texts in lexicographic order, numbers by size, false
      before true. */
  lemma CompareSign(a: Value, b: Value)
    requires Comparable(a, b)
    ensures Compare(a, b) < 0 <==>
            match a case Text(t) => TextBelow(t, b.text) case Bool(f) => !f && b.flag case _ => AsReal(a) < AsReal(b)
    ensures Compare(a, b) == 0 <==>
            match a case Text(t) => t == b.text case Bool(f) => f == b.flag case _ => AsReal(a) == AsReal(b)
  {
    if a.Text? { CompareTextIsLexicographic(a.text, b.text); }
  }

  lemma CompareIsAnOrder(a: Value, b: Value, c: Value)
    requires Comparable(a, b) && Comparable(b, c)
    ensures Comparable(b, a) && Comparable(a, c)
    ensures Compare(a, b) == -Compare(b, a)
    ensures Compare(a, b) <= 0 && Compare(b, c) <= 0 ==> Compare(a, c) <= 0
    ensures Compare(a, b) <= 0 && Compare(b, c) < 0 ==> Compare(a, c) < 0
    ensures Compare(a, b) < 0 && Compare(b, c) <= 0 ==> Compare(a, c) < 0
  {
    if a.Text? { CompareTextIsAnOrder(a.text, b.text, c.text); }
  }

  // ----- comparison with rounding ------------------------------------------------------

  /** How a 64-bit integer becomes a double: monotone, but not one to one. */
  type Rounding = Int64 -> real

  predicate Ordered(round: Rounding, x: Int64, y: Int64) { x < y ==> round(x) < round(y) }

  function Rounded(round: Rounding, v: Value): real
    requires Numeric(v)
  {
    if v.Int? then round(v.integer) else v.number
  }

  /** The numeric comparison as it is computed: two integers exactly, anything else
      as doubles. */
  function CompareNumbers(round: Rounding, a: Value, b: Value): int
    requires Numeric(a) && Numeric(b)
  {
    if a.Int? && b.Int? then (if a.integer < b.integer then -1 else if a.integer > b.integer then 1 else 0)
    else if Rounded(round, a) < Rounded(round, b) then -1
    else if Rounded(round, a) > Rounded(round, b) then 1
    else 0
  }

  predicate Transitive(round: Rounding, a: Value, b: Value, c: Value) {
    Numeric(a) && Numeric(b) && Numeric(c) && CompareNumbers(round, a, b) <= 0 && CompareNumbers(round, b, c) <= 0 ==>
      CompareNumbers(round, a, c) <= 0
  }

  /** Comparing numbers is transitive exactly when no two integers round to the same
      double; with 53 bits some do, beyond 2^53. */
  lemma RoundedOrderIff(round: Rounding)
    requires forall x: Int64, y: Int64 :: x <= y ==> round(x) <= round(y)
    ensures (forall a, b, c :: Transitive(round, a, b, c)) <==> forall x: Int64, y: Int64 :: Ordered(round, x, y)
  {
    if forall a, b, c :: Transitive(round, a, b, c) {
      forall x: Int64, y: Int64 ensures Ordered(round, x, y) {
        assert Transitive(round, Int(y), Double(round(x)), Int(x));
      }
    }
    if forall x: Int64, y: Int64 :: Ordered(round, x, y) {
      forall a, b, c ensures Transitive(round, a, b, c) {
        if a.Int? && b.Int? { assert Ordered(round, a.integer, b.integer); }
        if b.Int? && c.Int? { assert Ordered(round, b.integer, c.integer); }
        if a.Int? && c.Int? { assert Ordered(round, c.integer, a.integer); }
      }
    }
  }

  /** Where the integers convert exactly, this is the comparison of the values. */
  lemma ExactlyRounded(round: Rounding, a: Value, b: Value)
    requires Numeric(a) && Numeric(b)
    requires (a.Int? ==> round(a.integer) == a.integer as real) && (b.Int? ==> round(b.integer) == b.integer as real)
    ensures CompareNumbers(round, a, b) == Compare(a, b)
  {
  }

  // ----- COUNT -------------------------------------------------------------------

  /** The distinct values. The grouping key distinguishes the kinds: 1 and 1.0
      are different keys. */
  function Keys(xs: seq<Value>): set<Value> {
    if xs == [] then {} else Keys(xs[..|xs|-1]) + {xs[|xs|-1]}
  }

  lemma {:induction false} KeysAreTheElements(xs: seq<Value>, x: Value)
    ensures x in Keys(xs) <==> x in xs
  {
    if xs != [] {
      KeysAreTheElements(xs[..|xs|-1], x);
      assert xs == xs[..|xs|-1] + [xs[|xs|-1]];
    }
  }

  /** How many distinct values there are, counted one by one. */
  function DistinctCount(xs: seq<Value>): nat {
    if xs == [] then 0
    else DistinctCount(xs[..|xs|-1]) + if xs[|xs|-1] in Keys(xs[..|xs|-1]) then 0 else 1
  }

  lemma {:induction false} DistinctCountIsSize(xs: seq<Value>)
    ensures DistinctCount(xs) == |Keys(xs)|
  {
    if xs != [] {
      var keys, last := Keys(xs[..|xs|-1]), xs[|xs|-1];
      DistinctCountIsSize(xs[..|xs|-1]);
      if last in keys { assert keys + {last} == keys; }
    }
  }

  function CountOf(distinct: bool, xs: seq<Value>): nat { if distinct then DistinctCount(xs) else |xs| }

  /** Distinct counting over a concatenation counts the union of the keys. */
  lemma {:induction false} KeysConcat(xs: seq<Value>, ys: seq<Value>)
    ensures Keys(xs + ys) == Keys(xs) + Keys(ys)
  {
    if ys == [] {
      assert xs + ys == xs;
    } else {
      assert (xs + ys)[..|xs + ys|-1] == xs + ys[..|ys|-1];
      KeysConcat(xs, ys[..|ys|-1]);
    }
  }

  // ----- SUM and AVG ----------------------------------------------------------------

  /** Two's complement wrap-around of a 64-bit sum. */
  function Wrap(x: int): Int64 { (x - INT64_MIN) % 0x1_0000_0000_0000_0000 + INT64_MIN }

  lemma WrapAdds(a: int, b: int)
    ensures Wrap(Wrap(a) + b) == Wrap(a + b)
  {
    ModAbsorbs(a - INT64_MIN, b);
  }

  lemma ModAbsorbs(u: int, b: int)
    ensures (u % 0x1_0000_0000_0000_0000 + b) % 0x1_0000_0000_0000_0000 == (u + b) % 0x1_0000_0000_0000_0000
  {
    var q := u / 0x1_0000_0000_0000_0000;
    var v := u % 0x1_0000_0000_0000_0000 + b;
    assert u + b == v + 0x1_0000_0000_0000_0000 * q;
    assert (u + b) / 0x1_0000_0000_0000_0000 == v / 0x1_0000_0000_0000_0000 + q;
  }

  function IntPart(v: Value): int { if v.Int? then v.integer else 0 }

  function IntTotal(xs: seq<Value>): int { if xs == [] then 0 else IntTotal(xs[..|xs|-1]) + IntPart(xs[|xs|-1]) }

  function RealTotal(xs: seq<Value>): real { if xs == [] then 0.0 else RealTotal(xs[..|xs|-1]) + AsReal(xs[|xs|-1]) }

  lemma {:induction false} TotalsConcat(xs: seq<Value>, ys: seq<Value>)
    ensures IntTotal(xs + ys) == IntTotal(xs) + IntTotal(ys)
    ensures RealTotal(xs + ys) == RealTotal(xs) + RealTotal(ys)
  {
    if ys == [] {
      assert xs + ys == xs;
    } else {
      assert (xs + ys)[..|xs + ys|-1] == xs + ys[..|ys|-1];
      TotalsConcat(xs, ys[..|ys|-1]);
    }
  }

  /** Everything COUNT, SUM and AVG need to know about a sequence of values. */
  datatype Summary = Summary(count: nat, keys: set<Value>, ints: int, reals: real)

  function Summarize(xs: seq<Value>): Summary { Summary(|xs|, Keys(xs), IntTotal(xs), RealTotal(xs)) }

  function Plus(a: Summary, b: Summary): Summary {
    Summary(a.count + b.count, a.keys + b.keys, a.ints + b.ints, a.reals + b.reals)
  }

  function Single(x: Value): Summary { Summary(1, {x}, IntPart(x), AsReal(x)) }

  lemma SummarizeAppend(xs: seq<Value>, x: Value)
    ensures Summarize(xs + [x]) == Plus(Summarize(xs), Single(x))
  {
    assert (xs + [x])[..|xs|] == xs;
  }

  lemma SummarizeConcat(xs: seq<Value>, ys: seq<Value>)
    ensures Summarize(xs + ys) == Plus(Summarize(xs), Summarize(ys))
  {
    KeysConcat(xs, ys);
    TotalsConcat(xs, ys);
  }

  lemma PlusAssociates(a: Summary, b: Summary, c: Summary)
    ensures Plus(a, Plus(b, c)) == Plus(Plus(a, b), c)
  {
    assert a.keys + (b.keys + c.keys) == a.keys + b.keys + c.keys;
  }

  lemma PlusCommutes(a: Summary, b: Summary, x: Summary)
    ensures Plus(Plus(a, b), x) == Plus(Plus(a, x), b) == Plus(a, Plus(b, x))
  {
    assert a.keys + b.keys + x.keys == a.keys + x.keys + b.keys == a.keys + (b.keys + x.keys);
  }

  /** A total that fits in 64 bits is not changed by wrapping. */
  lemma WrapIsExact(xs: seq<Value>)
    requires Fits(IntTotal(xs))
    ensures Wrap(IntTotal(xs)) == IntTotal(xs)
  {
  }

  predicate Fits(x: int) { INT64_MIN <= x <= INT64_MAX }

  /** The addition of the n-th value to the sum of the values before it. */
  predicate AdditionFits(xs: seq<Value>, n: nat)
    requires n < |xs|
  {
    Fits(Wrap(IntTotal(xs[..n])) + IntPart(xs[n]))
  }

  lemma TotalOfMore(xs: seq<Value>, n: nat)
    requires n < |xs|
    ensures IntTotal(xs[..n + 1]) == IntTotal(xs[..n]) + IntPart(xs[n])
  {
    assert xs[..n + 1][..n] == xs[..n];
  }

  /** Sums built up one addition at a time: all additions fit exactly when all partial
      sums do. */
  lemma {:induction false} PartialSumsFit(total: nat -> int, fits: nat -> bool, n: nat)
    requires Fits(total(0)) && forall k: nat :: k < n && Fits(total(k)) ==> (fits(k) <==> Fits(total(k + 1)))
    ensures (forall k: nat :: k < n ==> fits(k)) <==> forall k: nat :: k <= n ==> Fits(total(k))
  {
    if n > 0 {
      PartialSumsFit(total, fits, n - 1);
      assert Fits(total(n - 1)) ==> (fits(n - 1) <==> Fits(total(n - 1 + 1)));
      assert (forall k: nat :: k < n ==> fits(k)) <==> (forall k: nat :: k < n - 1 ==> fits(k)) && fits(n - 1);
      assert (forall k: nat :: k <= n ==> Fits(total(k))) <==> (forall k: nat :: k <= n - 1 ==> Fits(total(k))) && Fits(total(n));
    }
  }

  /** No addition of the row loop overflows exactly when every partial sum fits in 64 bits. */
  lemma NoOverflowIff(xs: seq<Value>)
    ensures (forall n :: 0 <= n < |xs| ==> AdditionFits(xs, n)) <==> forall n :: 0 <= n <= |xs| ==> Fits(IntTotal(xs[..n]))
  {
    var total := (n: nat) => if n <= |xs| then IntTotal(xs[..n]) else 0;
    var fits := (n: nat) => n < |xs| && AdditionFits(xs, n);
    forall n: nat | n < |xs| && Fits(total(n)) ensures fits(n) <==> Fits(total(n + 1)) {
      TotalOfMore(xs, n);
      WrapIsExact(xs[..n]);
    }
    PartialSumsFit(total, fits, |xs|);
    assert forall n :: 0 <= n < |xs| ==> (fits(n) <==> AdditionFits(xs, n));
    assert forall n :: 0 <= n <= |xs| ==> total(n) == IntTotal(xs[..n]);
  }

  // ----- MIN, MAX, FIRST, LAST -----------------------------------------------------------

  datatype Mode = MIN | MAX | FIRST | LAST

  /** Whether a candidate replaces the current value (both non-null). */
  predicate Better(mode: Mode, candidate: Value, current: Value)
    requires mode == MIN || mode == MAX ==> Comparable(candidate, current)
  {
    match mode
    case MIN => Compare(candidate, current) < 0
    case MAX => Compare(candidate, current) > 0
    case FIRST => false
    case LAST => true
  }

  /** The comparison of an offered value with the current one throws. */
  predicate Throws(mode: Mode, candidate: Value, current: Value) {
    (mode == MIN || mode == MAX) && !Comparable(candidate, current)
  }

  /** Offers a value to the current choice; None means that the comparison threw. */
  function Offer(mode: Mode, current: Value, candidate: Value): Option<Value> {
    if candidate.Nul? then Some(current)
    else if current.Nul? then Some(candidate)
    else if Throws(mode, candidate, current) then None
    else if Better(mode, candidate, current) then Some(candidate) else Some(current)
  }

  /** The choice after a sequence of non-null values. */
  function Choose(mode: Mode, xs: seq<Value>): Option<Value> {
    if xs == [] then Some(Nul)
    else
      var before := Choose(mode, xs[..|xs|-1]);
      if before.None? then None else Offer(mode, before.value, xs[|xs|-1])
  }

  predicate NonNull(xs: seq<Value>) { forall x :: x in xs ==> !x.Nul? }

  /** Combining two partial choices is offering the later one to the earlier. */
  function Combine(mode: Mode, a: Option<Value>, b: Option<Value>): Option<Value> {
    if a.None? || b.None? then None else Offer(mode, a.value, b.value)
  }

  /** All the values MIN or MAX saw can be compared with each other. */
  predicate Homogeneous(mode: Mode, xs: seq<Value>) {
    forall i, j :: 0 <= i < j < |xs| ==> !Throws(mode, xs[j], xs[i])
  }

  /** Where the choice is taken from: the first or last position, or the earliest
      position of a value that no other value is below (above). */
  ghost predicate ChosenAt(mode: Mode, xs: seq<Value>, k: int) {
    0 <= k < |xs| &&
    match mode
    case FIRST => k == 0
    case LAST => k == |xs| - 1
    case MIN => forall j :: 0 <= j < |xs| && j != k ==>
                  Comparable(xs[k], xs[j]) && Compare(xs[k], xs[j]) <= 0 && (j < k ==> Compare(xs[k], xs[j]) < 0)
    case MAX => forall j :: 0 <= j < |xs| && j != k ==>
                  Comparable(xs[k], xs[j]) && Compare(xs[k], xs[j]) >= 0 && (j < k ==> Compare(xs[k], xs[j]) > 0)
  }

  /** The choice is the first value, the last value, or the earliest of the
      smallest (largest) values; it fails exactly when MIN or MAX had to compare
      values of different kinds. */
  lemma {:induction false} ChooseIsRight(mode: Mode, xs: seq<Value>)
    requires NonNull(xs)
    ensures Choose(mode, xs).Some? <==> Homogeneous(mode, xs)
    ensures Choose(mode, xs) == Some(Nul) <==> xs == []
    ensures Choose(mode, xs).Some? && xs != [] ==> exists k :: ChosenAt(mode, xs, k) && Choose(mode, xs) == Some(xs[k])
  {
    if xs != [] {
      var init, last := xs[..|xs|-1], xs[|xs|-1];
      ChooseIsRight(mode, init);
      assert forall i :: 0 <= i < |init| ==> init[i] == xs[i];
      if init == [] {
        assert ChosenAt(mode, xs, 0);
      } else if Choose(mode, init).Some? {
        var k :| ChosenAt(mode, init, k) && Choose(mode, init) == Some(init[k]);
        ChooseExtends(mode, xs, k);
      } else {
        assert !Homogeneous(mode, xs) by {
          var i, j :| 0 <= i < j < |init| && Throws(mode, init[j], init[i]);
          assert Throws(mode, xs[j], xs[i]);
        }
      }
    }
  }

  /** One comparison with any earlier value tells whether the next value fits in. */
  lemma HomogeneousExtends(mode: Mode, xs: seq<Value>, k: int)
    requires NonNull(xs) && 0 <= k < |xs| - 1 && Homogeneous(mode, xs[..|xs|-1])
    ensures Homogeneous(mode, xs) <==> !Throws(mode, xs[|xs|-1], xs[k])
  {
    var n := |xs| - 1;
    assert forall i :: 0 <= i < n ==> xs[..n][i] == xs[i];
    if !Throws(mode, xs[n], xs[k]) {
      forall i, j | 0 <= i < j < |xs| ensures !Throws(mode, xs[j], xs[i]) {
        assert j < n ==> !Throws(mode, xs[..n][j], xs[..n][i]);
        assert i < k ==> !Throws(mode, xs[..n][k], xs[..n][i]);
        assert k < i < n ==> !Throws(mode, xs[..n][i], xs[..n][k]);
      }
    }
  }

  /** A value below (above) the chosen one is below (above) every value before it. */
  lemma BetterThanChosen(mode: Mode, xs: seq<Value>, k: int, last: Value)
    requires (mode == MIN || mode == MAX) && ChosenAt(mode, xs, k)
    requires Comparable(last, xs[k]) && Better(mode, last, xs[k])
    ensures forall j :: 0 <= j < |xs| ==> Comparable(last, xs[j]) && Better(mode, last, xs[j])
  {
    forall j | 0 <= j < |xs| ensures Comparable(last, xs[j]) && Better(mode, last, xs[j]) {
      if j != k {
        CompareIsAnOrder(last, xs[k], xs[j]);
        CompareIsAnOrder(xs[j], xs[k], last);
        CompareIsAnOrder(xs[j], last, last);
      }
    }
  }

  /** The chosen position after one more value that does not throw. */
  lemma ChosenMoves(mode: Mode, xs: seq<Value>, k: int)
    requires |xs| >= 2 && ChosenAt(mode, xs[..|xs|-1], k) && !Throws(mode, xs[|xs|-1], xs[k])
    ensures ChosenAt(mode, xs, if Better(mode, xs[|xs|-1], xs[k]) then |xs| - 1 else k)
  {
    var init, n, last := xs[..|xs|-1], |xs| - 1, xs[|xs|-1];
    assert forall j :: 0 <= j < n ==> init[j] == xs[j];
    if mode == MIN || mode == MAX {
      CompareIsAnOrder(xs[k], last, xs[k]);
      if Better(mode, last, xs[k]) { BetterThanChosen(mode, init, k, last); }
    }
  }

  lemma ChooseExtends(mode: Mode, xs: seq<Value>, k: int)
    requires NonNull(xs) && |xs| >= 2 && Homogeneous(mode, xs[..|xs|-1])
    requires ChosenAt(mode, xs[..|xs|-1], k) && Choose(mode, xs[..|xs|-1]) == Some(xs[k])
    ensures Choose(mode, xs).Some? <==> Homogeneous(mode, xs)
    ensures Choose(mode, xs).Some? ==>
              !Choose(mode, xs).value.Nul? && exists k' :: ChosenAt(mode, xs, k') && Choose(mode, xs) == Some(xs[k'])
  {
    HomogeneousExtends(mode, xs, k);
    if !Throws(mode, xs[|xs|-1], xs[k]) { ChosenMoves(mode, xs, k); }
  }

  /** The homomorphism: choosing over a concatenation is choosing over the parts
      and combining the two choices, ties and failures included. */
  lemma {:induction false} ChooseConcat(mode: Mode, xs: seq<Value>, ys: seq<Value>)
    requires NonNull(xs) && NonNull(ys)
    ensures Choose(mode, xs + ys) == Combine(mode, Choose(mode, xs), Choose(mode, ys))
  {
    if ys == [] {
      assert xs + ys == xs;
    } else {
      var init, last := ys[..|ys|-1], ys[|ys|-1];
      assert (xs + ys)[..|xs + ys|-1] == xs + init;
      ChooseConcat(mode, xs, init);
      assert !last.Nul? && NonNull(init);
      CombineAssociates(mode, Choose(mode, xs), Choose(mode, init), last);
    }
  }

  lemma CombineAssociates(mode: Mode, a: Option<Value>, b: Option<Value>, c: Value)
    requires !c.Nul?
    ensures Combine(mode, Combine(mode, a, b), Some(c)) == Combine(mode, a, Combine(mode, b, Some(c)))
  {
    if a.Some? && b.Some? && !a.value.Nul? && !b.value.Nul? {
      OfferAssociates(mode, a.value, b.value, c);
    }
  }

  lemma OfferAssociates(mode: Mode, a: Value, b: Value, c: Value)
    requires !a.Nul? && !b.Nul? && !c.Nul?
    ensures Combine(mode, Offer(mode, a, b), Some(c)) == Combine(mode, Some(a), Offer(mode, b, c))
  {
    if (mode == MIN || mode == MAX) && Comparable(a, b) && Comparable(b, c) {
      CompareIsAnOrder(a, b, c);
      CompareIsAnOrder(c, b, a);
      CompareIsAnOrder(b, a, c);
      CompareIsAnOrder(a, c, b);
    }
  }
}
