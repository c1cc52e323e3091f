/** The reference time of a snapshot: a fold over the slots in the unspecified order
    of a hash map (src/processor/InputBuffer.cpp). */
module ReferenceTime {
  import opened SampleWindow

  /** Nanoseconds since the epoch, in 64-bit arithmetic that wraps around. */
  function Nanos(t: Timestamp): UInt64 { (t.seconds * 1_000_000_000 + t.nanos) % UINT64_LIMIT }

  datatype Best = Best(value: UInt64, time: Timestamp)

  const NO_TIME: Best := Best(0, Timestamp(0, 0))

  /** One slot: a later or equal time replaces the best one. */
  function Look(best: Best, b: DataBatch): Best {
    if b.timestamps == [] then best
    else
      var latest := b.timestamps[|b.timestamps|-1];
      if Nanos(latest) >= best.value then Best(Nanos(latest), latest) else best
  }

  /** The best time after the slots of some sources, in that order. */
  function BestOf(slots: map<string, DataBatch>, order: seq<string>): Best
    requires forall s :: s in order ==> s in slots
  {
    if order == [] then NO_TIME
    else Look(BestOf(slots, order[..|order|-1]), slots[order[|order|-1]])
  }

  /** Every source exactly once. */
  ghost predicate IsOrder(slots: map<string, DataBatch>, order: seq<string>) {
    && (forall s :: s in order <==> s in slots)
    && (forall i, j :: 0 <= i < j < |order| ==> order[i] != order[j])
  }

  ghost function RefOf(slots: map<string, DataBatch>, order: seq<string>): Timestamp
    requires IsOrder(slots, order)
  {
    BestOf(slots, order).time
  }

  /** The loop over the slots, in whatever order they come. */
  method MaxReferenceTime(slots: map<string, DataBatch>) returns (time: Timestamp)
    ensures exists order :: IsOrder(slots, order) && time == RefOf(slots, order)
  {
    var best := NO_TIME;
    var todo := slots.Keys;
    ghost var order: seq<string> := [];
    while todo != {}
      invariant todo <= slots.Keys
      invariant forall s :: s in order <==> s in slots && s !in todo
      invariant forall i, j :: 0 <= i < j < |order| ==> order[i] != order[j]
      invariant best == BestOf(slots, order)
      decreases todo
    {
      var source :| source in todo;
      todo := todo - {source};
      best := Look(best, slots[source]);
      assert (order + [source])[..|order|] == order;
      order := order + [source];
    }
    assert IsOrder(slots, order);
    time := best.time;
  }

  /** The source has samples. */
  predicate Holds(slots: map<string, DataBatch>, s: string) { s in slots && slots[s].timestamps != [] }

  function Latest(slots: map<string, DataBatch>, s: string): Timestamp
    requires Holds(slots, s)
  {
    slots[s].timestamps[|slots[s].timestamps|-1]
  }

  /** No source has a later sample, by the wrapped nanosecond count. */
  ghost predicate IsMax(slots: map<string, DataBatch>, s: string) {
    Holds(slots, s) && forall r :: Holds(slots, r) ==> Nanos(Latest(slots, r)) <= Nanos(Latest(slots, s))
  }

  /** The best time is the latest sample of one of the sources. */
  ghost predicate TakenFrom(slots: map<string, DataBatch>, order: seq<string>, best: Best) {
    exists s :: s in order && Holds(slots, s) && best == Best(Nanos(Latest(slots, s)), Latest(slots, s))
  }

  lemma TakenFromMore(slots: map<string, DataBatch>, order: seq<string>, more: seq<string>, best: Best)
    requires TakenFrom(slots, order, best)
    ensures TakenFrom(slots, order + more, best)
  {
    var s :| s in order && Holds(slots, s) && best == Best(Nanos(Latest(slots, s)), Latest(slots, s));
    assert s in order + more;
  }

  /** What the fold has seen: a maximal source, unless nothing had samples. */
  lemma {:induction false} BestIsMax(slots: map<string, DataBatch>, order: seq<string>)
    requires forall s :: s in order ==> s in slots
    ensures forall r :: r in order && Holds(slots, r) ==> Nanos(Latest(slots, r)) <= BestOf(slots, order).value
    ensures if exists r :: r in order && Holds(slots, r) then TakenFrom(slots, order, BestOf(slots, order)) else BestOf(slots, order) == NO_TIME
  {
    if order != [] {
      var init, last := order[..|order|-1], order[|order|-1];
      var before := BestOf(slots, init);
      BestIsMax(slots, init);
      assert order == init + [last] && last in order;
      if Holds(slots, last) && Nanos(Latest(slots, last)) >= before.value {
        assert BestOf(slots, order) == Best(Nanos(Latest(slots, last)), Latest(slots, last));
        assert TakenFrom(slots, order, BestOf(slots, order));
      } else {
        assert BestOf(slots, order) == before;
        if exists r :: r in init && Holds(slots, r) { TakenFromMore(slots, init, [last], before); }
        assert Holds(slots, last) ==> before != NO_TIME;
      }
    }
  }

  /** Whatever the order, the result is the latest sample of a maximal source. */
  lemma RefIsMax(slots: map<string, DataBatch>, order: seq<string>)
    requires IsOrder(slots, order)
    ensures if exists s :: Holds(slots, s) then exists s :: IsMax(slots, s) && RefOf(slots, order) == Latest(slots, s)
            else RefOf(slots, order) == Timestamp(0, 0)
  {
    BestIsMax(slots, order);
    if r :| Holds(slots, r) {
      assert r in order;
      var s :| s in order && Holds(slots, s) && BestOf(slots, order) == Best(Nanos(Latest(slots, s)), Latest(slots, s));
      assert IsMax(slots, s);
    }
  }

  /** Of several maximal sources the one visited last decides. */
  lemma {:induction false} LastMaxWins(slots: map<string, DataBatch>, order: seq<string>, k: nat)
    requires (forall s :: s in order ==> s in slots) && k < |order| && IsMax(slots, order[k])
    requires forall j :: k < j < |order| ==> !IsMax(slots, order[j])
    ensures BestOf(slots, order).time == Latest(slots, order[k])
  {
    var init, last := order[..|order|-1], order[|order|-1];
    BestIsMax(slots, init);
    if k < |init| {
      LastMaxWins(slots, init, k);
      assert order[k] in init && Holds(slots, order[k]);
      assert !IsMax(slots, last);
    }
  }

  /** Every maximal source can be the one that decides: it does when it comes last. */
  lemma AnyMaxCanWin(slots: map<string, DataBatch>, s: string) returns (order: seq<string>)
    requires IsMax(slots, s)
    ensures IsOrder(slots, order) && RefOf(slots, order) == Latest(slots, s)
  {
    var rest := Enumerate(slots, slots.Keys - {s});
    order := rest + [s];
    assert order[..|order|-1] == rest;
    BestIsMax(slots, rest);
  }

  lemma {:induction false} Enumerate(slots: map<string, DataBatch>, keys: set<string>) returns (order: seq<string>)
    ensures (forall s :: s in order <==> s in keys) && (forall i, j :: 0 <= i < j < |order| ==> order[i] != order[j])
    decreases keys
  {
    if keys == {} {
      order := [];
    } else {
      var s :| s in keys;
      var rest := Enumerate(slots, keys - {s});
      order := rest + [s];
    }
  }

  /** All maximal sources agree on their latest timestamp. */
  ghost predicate OneMaximum(slots: map<string, DataBatch>) {
    forall r, s :: IsMax(slots, r) && IsMax(slots, s) ==> Latest(slots, r) == Latest(slots, s)
  }

  /** The reference time is independent of the iteration order exactly when the
      maximal sources agree. */
  lemma OrderIndependentIff(slots: map<string, DataBatch>)
    ensures OneMaximum(slots) <==>
            forall p, q :: IsOrder(slots, p) && IsOrder(slots, q) ==> RefOf(slots, p) == RefOf(slots, q)
  {
    if OneMaximum(slots) {
      forall p, q | IsOrder(slots, p) && IsOrder(slots, q) ensures RefOf(slots, p) == RefOf(slots, q) {
        RefIsMax(slots, p);
        RefIsMax(slots, q);
      }
    } else {
      var r, s :| IsMax(slots, r) && IsMax(slots, s) && Latest(slots, r) != Latest(slots, s);
      var p := AnyMaxCanWin(slots, r);
      var q := AnyMaxCanWin(slots, s);
    }
  }

  // ----- ordinary timestamps --------------------------------------------------------------------

  /** Nanoseconds within the second, and no wrap-around. */
  predicate Ordinary(t: Timestamp) { t.nanos < 1_000_000_000 && t.seconds <= 18446744072 }

  predicate AtMost(t: Timestamp, u: Timestamp) { t.seconds < u.seconds || (t.seconds == u.seconds && t.nanos <= u.nanos) }

  lemma NanosKeepTheOrder(t: Timestamp, u: Timestamp)
    requires Ordinary(t) && Ordinary(u)
    ensures Nanos(t) <= Nanos(u) <==> AtMost(t, u)
  {
    assert Nanos(t) == t.seconds * 1_000_000_000 + t.nanos;
    assert Nanos(u) == u.seconds * 1_000_000_000 + u.nanos;
  }

  /** For ordinary timestamps the order does not matter, and the result is the
      lexicographic maximum of the latest samples. */
  lemma RefIsLatest(slots: map<string, DataBatch>, order: seq<string>)
    requires IsOrder(slots, order) && forall s :: Holds(slots, s) ==> Ordinary(Latest(slots, s))
    ensures OneMaximum(slots)
    ensures forall s :: Holds(slots, s) ==> AtMost(Latest(slots, s), RefOf(slots, order))
    ensures (exists s :: Holds(slots, s)) ==> exists s :: Holds(slots, s) && RefOf(slots, order) == Latest(slots, s)
  {
    RefIsMax(slots, order);
    forall r, s | Holds(slots, r) && Holds(slots, s)
      ensures Nanos(Latest(slots, r)) <= Nanos(Latest(slots, s)) <==> AtMost(Latest(slots, r), Latest(slots, s))
    {
      NanosKeepTheOrder(Latest(slots, r), Latest(slots, s));
    }
  }

  /** Two sources at the same instant, one of them written with a whole second of
      nanoseconds: the result depends on the iteration order. */
  lemma OrderMatters()
    ensures var slots := map["a" := DataBatch([Timestamp(1, 0)], [], []), "b" := DataBatch([Timestamp(0, 1_000_000_000)], [], [])];
            IsOrder(slots, ["a", "b"]) && IsOrder(slots, ["b", "a"]) && RefOf(slots, ["a", "b"]) != RefOf(slots, ["b", "a"])
  {
    assert ["a", "b"][..1] == ["a"] && ["b", "a"][..1] == ["b"] && ["a"][..0] == [] && ["b"][..0] == [];
  }
}
