/** Replaying the flat table of a configuration rebuilds it. */
module Rebuilding {
  import opened Wrappers
  import opened PathSyntax
  import opened ConfigTree
  import opened Assignment
  import opened Flattening
  import opened Addressing

  function SequenceSlot(items: seq<Tree>): Option<Tree> { if items == [] then None else Some(Seq(items)) }

  lemma FirstUnderIndex(key: string, index: nat, before: seq<Tree>, segments: seq<Segment>, text: string)
    requires |before| <= index
    ensures var s, o := [Segment(key, Some(index))] + segments, AssignChild(SequenceSlot(before), [Segment(key, Some(index))] + segments, text, true);
            if segments == [] then o == Outcome(Some(Seq(Extend(before, index, Leaf(None))[index := Leaf(Some(text))])), None)
            else var m := Assign(Map([]), segments, text, true);
                 o == Outcome(Some(Seq(Extend(before, index, Map([]))[index := m.node])), m.error)
  {
    assert ([Segment(key, Some(index))] + segments)[1..] == segments;
  }

  lemma NextUnderIndex(key: string, index: nat, items: seq<Tree>, segments: seq<Segment>, text: string)
    requires index < |items| && items[index].Map? && segments != []
    ensures var m := Assign(items[index], segments, text, true);
            AssignChild(Some(Seq(items)), [Segment(key, Some(index))] + segments, text, true)
            == Outcome(Some(Seq(items[index := m.node])), m.error)
  {
    assert ([Segment(key, Some(index))] + segments)[1..] == segments;
  }

  lemma SetTwice(items: seq<Tree>, k: nat, a: Tree, b: Tree)
    requires k < |items|
    ensures items[k := a][k] == a && items[k := a][k := b] == items[k := b]
  {
  }

  /** Rows below a map item are that map's own assignments. */
  lemma {:induction false} StepsIntoItem(key: string, index: nat, before: seq<Tree>, rows: seq<Row>)
    requires |before| <= index && rows != [] && forall r :: r in rows ==> r.segments != []
    requires Below(Segment(key, Some(index)), Lift(Segment(key, Some(index)), rows))
    ensures var o := MapSteps(Map([]), rows);
            ChildSteps(SequenceSlot(before), Lift(Segment(key, Some(index)), rows))
            == Outcome(Some(Seq(Extend(before, index, Map([]))[index := o.node])), o.error)
  {
    var s, init, last := Segment(key, Some(index)), rows[..|rows|-1], rows[|rows|-1];
    assert Lift(s, rows)[..|Lift(s, rows)|-1] == Lift(s, init);
    if init == [] {
      FirstUnderIndex(key, index, before, last.segments, last.text);
    } else {
      LiftIsBelow(s, init);
      StepsIntoItem(key, index, before, init);
      StaysMap(Map([]), init);
      var padded, m := Extend(before, index, Map([])), MapSteps(Map([]), init).node;
      NextUnderIndex(key, index, padded[index := m], last.segments, last.text);
      SetTwice(padded, index, m, Assign(m, last.segments, last.text, true).node);
    }
  }

  lemma {:induction false} RebuiltKeys(entries: seq<Entry>, key: string)
    requires key !in Keys(entries)
    ensures Find(RebuiltEntries(entries), key) == |RebuiltEntries(entries)|
  {
    if exists k :: 0 <= k < |RebuiltEntries(entries)| && RebuiltEntries(entries)[k].key == key {
      var k :| 0 <= k < |RebuiltEntries(entries)| && RebuiltEntries(entries)[k].key == key;
      RebuiltKeyIsThere(entries, k);
    }
  }

  lemma {:induction false} RebuiltKeyIsThere(entries: seq<Entry>, k: nat)
    requires k < |RebuiltEntries(entries)|
    ensures RebuiltEntries(entries)[k].key in Keys(entries)
  {
    if k < |RebuiltEntries(entries[..|entries|-1])| { RebuiltKeyIsThere(entries[..|entries|-1], k); }
  }

  /** The rows of a map, assigned to an empty one. */
  lemma {:induction false} EntriesRebuild(entries: seq<Entry>)
    requires AddressableEntries(entries)
    ensures forall r :: r in RowsOfEntries(entries) ==> r.segments != []
    ensures MapSteps(Map([]), RowsOfEntries(entries)) == Outcome(Map(RebuiltEntries(entries)), None)
    ensures RowsOfEntries(entries) == [] <==> RebuiltEntries(entries) == []
    decreases entries
  {
    EntryRowsAreNotEmpty(entries);
    if entries != [] {
      var init, last := entries[..|entries|-1], entries[|entries|-1];
      var rows := RowsOfChild(last.key, last.node);
      EntriesRebuild(init);
      ChildRebuilds(last.key, last.node);
      MapStepsAppend(Map([]), RowsOfEntries(init), rows);
      RebuiltKeys(init, last.key);
      StepsBelowKey(RebuiltEntries(init), last.key, rows);
      assert RebuiltEntries(init) + [] == RebuiltEntries(init);
    }
  }

  lemma OneScalar(key: string, text: string)
    ensures ChildSteps(None, [Row([Segment(key, None)], text)]) == Outcome(Some(Leaf(Some(text))), None)
  {
    var segments := [Segment(key, None)];
    var rows := [Row(segments, text)];
    assert rows[..|rows|-1] == [] && segments[1..] == [];
    assert AssignNode(None, segments, text, true) == Outcome(Some(Leaf(Some(text))), None);
    assert ChildSteps(None, rows[..|rows|-1]) == Outcome(None, None);
  }

  /** The rows of a child, assigned to a key that is not there yet. */
  lemma {:induction false} ChildRebuilds(key: string, node: Tree)
    requires Addressable(node)
    ensures BelowKey(key, RowsOfChild(key, node))
    ensures ChildSteps(None, RowsOfChild(key, node)) == Outcome(Rebuilt(node), None)
    ensures RowsOfChild(key, node) == [] <==> Rebuilt(node).None?
    decreases node
  {
    ChildRowsStartWithTheKey(key, node);
    match node
    case Leaf(value) =>
      OneScalar(key, TextOf(value));
    case Map(entries) =>
      EntriesRebuild(entries);
      LiftIsBelow(Segment(key, None), RowsOfEntries(entries));
      StepsIntoMap(key, None, RowsOfEntries(entries));
    case Seq(items) =>
      if items == [] {
        OneScalar(key, "[]");
      } else {
        ItemsRebuild(key, items);
      }
  }

  /** The rows of one item, assigned behind the items before it. */
  lemma {:induction false} ItemRebuilds(key: string, index: nat, before: seq<Tree>, item: Tree)
    requires |before| <= index && !item.Seq? && Addressable(item)
    ensures var rows := RowsOfItem(Segment(key, Some(index)), item);
            && BelowKey(key, rows)
            && (rows == [] <==> Rebuilt(item).None?)
            && ChildSteps(SequenceSlot(before), rows) ==
               Outcome(if rows == [] then SequenceSlot(before)
                       else Some(Seq(Extend(before, index, Padding(item))[index := Rebuilt(item).value])), None)
    decreases item, 0
  {
    var s := Segment(key, Some(index));
    if item.Leaf? {
      FirstUnderIndex(key, index, before, [], TextOf(item.text));
      assert [s] + [] == [s];
      assert RowsOfItem(s, item)[..0] == [];
    } else {
      EntriesRebuild(item.entries);
      LiftIsBelow(s, RowsOfEntries(item.entries));
      if RowsOfEntries(item.entries) != [] { StepsIntoItem(key, index, before, RowsOfEntries(item.entries)); }
    }
  }

  /** The rows of a sequence, assigned item by item. */
  lemma {:induction false} ItemsRebuild(key: string, items: seq<Tree>)
    requires AddressableItems(items)
    ensures BelowKey(key, RowsOfItems(key, items))
    ensures ChildSteps(None, RowsOfItems(key, items)) == Outcome(SequenceSlot(RebuiltItems(items)), None)
    ensures RowsOfItems(key, items) == [] <==> RebuiltItems(items) == []
    decreases items
  {
    RowsStartWithTheKey(key, items);
    if items != [] {
      var init, last := items[..|items|-1], items[|items|-1];
      ItemsRebuild(key, init);
      ItemRebuilds(key, |items| - 1, RebuiltItems(init), last);
      ChildStepsAppend(None, RowsOfItems(key, init), RowsOfItem(Segment(key, Some(|items| - 1)), last));
    }
  }

  // ----- from rows of segments to rows of text -------------------------------------------

  function Printed(prefix: seq<Segment>, rows: seq<Row>): seq<TextRow> {
    if rows == [] then []
    else Printed(prefix, rows[..|rows|-1]) + [TextRow(Print(prefix + rows[|rows|-1].segments), rows[|rows|-1].text)]
  }

  lemma {:induction false} PrintedAppend(prefix: seq<Segment>, a: seq<Row>, b: seq<Row>)
    ensures Printed(prefix, a + b) == Printed(prefix, a) + Printed(prefix, b)
  {
    if b == [] {
      assert a + b == a;
    } else {
      assert (a + b)[..|a + b|-1] == a + b[..|b|-1];
      PrintedAppend(prefix, a, b[..|b|-1]);
    }
  }

  lemma {:induction false} PrintedLift(prefix: seq<Segment>, s: Segment, rows: seq<Row>)
    ensures Printed(prefix, Lift(s, rows)) == Printed(prefix + [s], rows)
  {
    if rows != [] {
      var init, last := rows[..|rows|-1], rows[|rows|-1];
      PrintedLift(prefix, s, init);
      assert Lift(s, rows)[..|Lift(s, rows)|-1] == Lift(s, init);
      assert prefix + ([s] + last.segments) == prefix + [s] + last.segments;
    }
  }

  lemma PrintedOne(prefix: seq<Segment>, s: Segment, text: string)
    ensures Printed(prefix, [Row([s], text)]) == [TextRow(Print(prefix + [s]), text)]
  {
    assert [Row([s], text)][..0] == [];
  }

  /** Extending a printed path, as the walk does it. */
  lemma PathSteps(prefix: seq<Segment>, key: string, index: nat)
    requires key != "" && (prefix != [] ==> Print(prefix) != "")
    ensures Print(prefix + [Segment(key, None)]) == KeyPath(Print(prefix), key) != ""
    ensures Print(prefix + [Segment(key, Some(index))]) == ItemPath(KeyPath(Print(prefix), key), index) != ""
  {
    assert (prefix + [Segment(key, None)])[..|prefix|] == prefix;
    assert (prefix + [Segment(key, Some(index))])[..|prefix|] == prefix;
    assert Print(prefix) + "." + PrintOne(Segment(key, Some(index))) == ItemPath(Print(prefix) + "." + key, index);
    assert PrintOne(Segment(key, Some(index))) == ItemPath(key, index);
    assert PrintOne(Segment(key, None)) == key;
    if prefix == [] {
      assert "" + PrintOne(Segment(key, Some(index))) == PrintOne(Segment(key, Some(index)));
      assert "" + "" + key == key;
    }
  }

  /** The walk prints exactly the rows of segments. */
  lemma {:induction false} EntriesArePrinted(entries: seq<Entry>, prefix: seq<Segment>)
    requires AddressableEntries(entries) && (prefix != [] ==> Print(prefix) != "")
    ensures FlattenEntries(entries, Print(prefix)) == Printed(prefix, RowsOfEntries(entries))
    decreases entries, 1
  {
    if entries != [] {
      var init, last := entries[..|entries|-1], entries[|entries|-1];
      EntriesArePrinted(init, prefix);
      ChildIsPrinted(last.key, last.node, prefix);
      PrintedAppend(prefix, RowsOfEntries(init), RowsOfChild(last.key, last.node));
    }
  }

  lemma {:induction false} ChildIsPrinted(key: string, node: Tree, prefix: seq<Segment>)
    requires key != "" && Addressable(node) && (prefix != [] ==> Print(prefix) != "")
    ensures Flatten(node, KeyPath(Print(prefix), key)) == Printed(prefix, RowsOfChild(key, node))
    decreases node, 1
  {
    var s := Segment(key, None);
    PathSteps(prefix, key, 0);
    match node
    case Leaf(value) => PrintedOne(prefix, s, TextOf(value));
    case Map(entries) =>
      EntriesArePrinted(entries, prefix + [s]);
      PrintedLift(prefix, s, RowsOfEntries(entries));
    case Seq(items) =>
      ItemsArePrinted(key, items, prefix);
      PrintedOne(prefix, s, "[]");
  }

  lemma {:induction false} ItemsArePrinted(key: string, items: seq<Tree>, prefix: seq<Segment>)
    requires key != "" && AddressableItems(items) && (prefix != [] ==> Print(prefix) != "")
    ensures FlattenItems(items, KeyPath(Print(prefix), key)) == Printed(prefix, RowsOfItems(key, items))
    decreases items, 1
  {
    if items != [] {
      var init, last, index := items[..|items|-1], items[|items|-1], |items| - 1;
      var s := Segment(key, Some(index));
      ItemsArePrinted(key, init, prefix);
      PathSteps(prefix, key, index);
      PrintedAppend(prefix, RowsOfItems(key, init), RowsOfItem(s, last));
      match last
      case Leaf(value) => PrintedOne(prefix, s, TextOf(value));
      case Map(entries) =>
        EntriesArePrinted(entries, prefix + [s]);
        PrintedLift(prefix, s, RowsOfEntries(entries));
    }
  }

  // ----- every printed path can be parsed ----------------------------------------------------

  lemma {:induction false} LiftIsProper(s: Segment, rows: seq<Row>)
    requires Nameable([s]) && Proper(rows)
    ensures Proper(Lift(s, rows))
  {
    if rows != [] { LiftIsProper(s, rows[..|rows|-1]); }
  }

  lemma {:induction false} EntriesAreProper(entries: seq<Entry>)
    requires AddressableEntries(entries)
    ensures Proper(RowsOfEntries(entries))
    decreases entries, 1
  {
    if entries != [] {
      var last := entries[|entries|-1];
      EntriesAreProper(entries[..|entries|-1]);
      if last.node.Map? {
        EntriesAreProper(last.node.entries);
        LiftIsProper(Segment(last.key, None), RowsOfEntries(last.node.entries));
      } else if last.node.Seq? {
        ItemsAreProper(last.key, last.node.items);
      }
    }
  }

  lemma {:induction false} ItemsAreProper(key: string, items: seq<Tree>)
    requires key != "" && KeyText(key) && AddressableItems(items)
    ensures Proper(RowsOfItems(key, items))
    decreases items, 1
  {
    if items != [] {
      var last := items[|items|-1];
      ItemsAreProper(key, items[..|items|-1]);
      if last.Map? {
        EntriesAreProper(last.entries);
        LiftIsProper(Segment(key, Some(|items| - 1)), RowsOfEntries(last.entries));
      }
    }
  }

  lemma {:induction false} ReplayIsSteps(t: Tree, rows: seq<Row>)
    requires Proper(rows) && MapSteps(t, rows).error.None?
    ensures Replay(t, Printed([], rows)) == Some(MapSteps(t, rows).node)
  {
    if rows != [] {
      var last := rows[|rows|-1];
      ReplayIsSteps(t, rows[..|rows|-1]);
      assert [] + last.segments == last.segments;
      RoundTrip(last.segments);
    }
  }

  /** Applying the rows of an addressable configuration to an empty map succeeds and
      rebuilds it, up to missing values, empty sequences and nodes without rows. */
  lemma FlattenThenReplay(entries: seq<Entry>)
    requires AddressableEntries(entries)
    ensures Replay(Map([]), Flatten(Map(entries), "")) == Some(Map(RebuiltEntries(entries)))
  {
    EntriesRebuild(entries);
    EntriesArePrinted(entries, []);
    EntriesAreProper(entries);
    ReplayIsSteps(Map([]), RowsOfEntries(entries));
  }

  // ----- when nothing is lost ---------------------------------------------------------------------

  /** Nodes that come back as they are: valued scalars, maps and sequences that are
      not empty, and below them the same; in a sequence empty maps may also stand in
      front of a map item. */
  predicate Faithful(t: Tree)
    decreases t
  {
    match t
    case Leaf(value) => value.Some?
    case Map(entries) => entries != [] && FaithfulEntries(entries)
    case Seq(items) => items != [] && FaithfulItems(items)
  }

  predicate FaithfulEntries(entries: seq<Entry>)
    decreases entries
  {
    entries == [] || (FaithfulEntries(entries[..|entries|-1]) && Faithful(entries[|entries|-1].node))
  }

  predicate FaithfulItems(items: seq<Tree>)
    decreases items
  {
    items == [] ||
    (var init, last := items[..|items|-1], items[|items|-1];
     Faithful(last) && FaithfulItems(if last.Map? then WithoutPadding(init) else init))
  }

  /** Drops the empty maps at the end. */
  function WithoutPadding(items: seq<Tree>): (r: seq<Tree>)
    ensures |r| <= |items| && r == items[..|r|]
    ensures forall j :: |r| <= j < |items| ==> items[j] == Map([])
    ensures r != [] ==> r[|r|-1] != Map([])
  {
    if items == [] || items[|items|-1] != Map([]) then items else WithoutPadding(items[..|items|-1])
  }

  lemma {:induction false} WithoutPaddingFinds(items: seq<Tree>, n: nat)
    requires n <= |items| && (forall j :: n <= j < |items| ==> items[j] == Map([]))
    requires n == 0 || items[n-1] != Map([])
    ensures WithoutPadding(items) == items[..n]
  {
    if n < |items| {
      WithoutPaddingFinds(items[..|items|-1], n);
      assert items[..|items|-1][..n] == items[..n];
    } else {
      assert items[..n] == items;
    }
  }

  /** The items behind the rebuilt ones left no rows. */
  lemma {:induction false} TrailingItemsHaveNoRows(items: seq<Tree>)
    ensures var n := |RebuiltItems(items)|;
            && (forall j :: n <= j < |items| ==> Rebuilt(items[j]).None?)
            && (n > 0 ==> Rebuilt(items[n-1]) == Some(RebuiltItems(items)[n-1]))
  {
    if items != [] && Rebuilt(items[|items|-1]).None? { TrailingItemsHaveNoRows(items[..|items|-1]); }
  }

  lemma {:induction false} EmptyMapsLeaveNoRows(items: seq<Tree>, n: nat)
    requires n <= |items| && forall j :: n <= j < |items| ==> items[j] == Map([])
    ensures RebuiltItems(items) == RebuiltItems(items[..n])
  {
    if n < |items| {
      EmptyMapsLeaveNoRows(items[..|items|-1], n);
      assert items[..|items|-1][..n] == items[..n];
    } else {
      assert items[..n] == items;
    }
  }

  lemma NeverPadding(t: Tree)
    ensures Rebuilt(t) != Some(Map([])) && Rebuilt(t) != Some(Leaf(None))
  {
  }

  /** Some items, filled up with padding. */
  function Filled<T>(items: seq<T>, n: nat, padding: T): seq<T>
    requires |items| <= n
  {
    items + seq(n - |items|, _ => padding)
  }

  /** The only way to fill something up to `items` that does not end with padding. */
  lemma FilledIff<T>(items: seq<T>, padding: T, kept: seq<T>, before: seq<T>)
    requires |kept| <= |items| && kept == items[..|kept|] && (forall j :: |kept| <= j < |items| ==> items[j] == padding)
    requires |before| <= |items| && (kept != [] ==> kept[|kept|-1] != padding) && (before != [] ==> before[|before|-1] != padding)
    ensures Filled(before, |items|, padding) == items <==> before == kept
  {
    var padded := Filled(before, |items|, padding);
    if before == kept {
      assert padded == items;
    } else if |before| < |kept| {
      assert padded[|kept|-1] == padding != items[|kept|-1];
    } else if |before| > |kept| {
      assert items[|before|-1] == padding != padded[|before|-1];
    } else {
      var k :| 0 <= k < |before| && before[k] != kept[k];
      assert padded[k] == before[k] != items[k];
    }
  }

  lemma AppendedIff<T>(a: seq<T>, b: seq<T>, last: T)
    ensures a + [last] == b + [last] <==> a == b
  {
    if a + [last] == b + [last] { assert a == (a + [last])[..|a|] == (b + [last])[..|b|] == b; }
  }

  /** The rebuilt items in front of a last one that comes back. */
  lemma RebuiltInFront(items: seq<Tree>)
    requires items != [] && Rebuilt(items[|items|-1]) == Some(items[|items|-1])
    ensures var n, init, last := |items| - 1, items[..|items|-1], items[|items|-1];
            RebuiltItems(items) == items <==> Filled(RebuiltItems(init), n, Padding(last)) == init
  {
    var n, init, last := |items| - 1, items[..|items|-1], items[|items|-1];
    assert Extend(RebuiltItems(init), n, Padding(last))[n := last] == Filled(RebuiltItems(init), n, Padding(last)) + [last];
    assert items == init + [last];
    AppendedIff(Filled(RebuiltItems(init), n, Padding(last)), init, last);
  }

  lemma LastIsNoPadding(items: seq<Tree>)
    requires RebuiltItems(items) != []
    ensures RebuiltItems(items)[|RebuiltItems(items)|-1] != Map([]) && RebuiltItems(items)[|RebuiltItems(items)|-1] != Leaf(None)
  {
    TrailingItemsHaveNoRows(items);
    NeverPadding(items[|RebuiltItems(items)|-1]);
  }

  /** A last item that is no map comes back only behind items that all came back:
      a null scalar in front of it would come back as an empty one. */
  lemma BeforeAScalar(items: seq<Tree>)
    requires items != [] && !items[|items|-1].Map? && Rebuilt(items[|items|-1]) == Some(items[|items|-1])
    ensures RebuiltItems(items) == items <==> RebuiltItems(items[..|items|-1]) == items[..|items|-1]
  {
    var n, init := |items| - 1, items[..|items|-1];
    var before := RebuiltItems(init);
    RebuiltInFront(items);
    TrailingItemsHaveNoRows(init);
    if |before| < n {
      assert Filled(before, n, Leaf(None))[|before|] == Leaf(None);
      assert Rebuilt(init[|before|]).None?;
    } else {
      assert Filled(before, n, Leaf(None)) == before;
    }
  }

  /** In front of a map, missing items are padded with empty maps. */
  lemma BeforeAMap(items: seq<Tree>)
    requires items != [] && items[|items|-1].Map? && Rebuilt(items[|items|-1]) == Some(items[|items|-1])
    ensures var kept := WithoutPadding(items[..|items|-1]); RebuiltItems(items) == items <==> RebuiltItems(kept) == kept
  {
    var init := items[..|items|-1];
    var kept := WithoutPadding(init);
    RebuiltInFront(items);
    if RebuiltItems(init) != [] { LastIsNoPadding(init); }
    EmptyMapsLeaveNoRows(init, |kept|);
    FilledIff(init, Map([]), kept, RebuiltItems(init));
  }

  /** A node comes back as it is exactly when it is faithful. */
  lemma {:induction false} RebuiltIffFaithful(t: Tree)
    ensures Rebuilt(t) == Some(t) <==> Faithful(t)
    decreases t
  {
    match t
    case Leaf(value) =>
    case Map(entries) => EntriesIffFaithful(entries);
    case Seq(items) => ItemsIffFaithful(items);
  }

  lemma {:induction false} FewerEntries(entries: seq<Entry>)
    ensures |RebuiltEntries(entries)| <= |entries|
  {
    if entries != [] { FewerEntries(entries[..|entries|-1]); }
  }

  lemma {:induction false} EntriesIffFaithful(entries: seq<Entry>)
    ensures RebuiltEntries(entries) == entries <==> FaithfulEntries(entries)
    decreases entries
  {
    if entries != [] {
      var n, init, last := |entries| - 1, entries[..|entries|-1], entries[|entries|-1];
      EntriesIffFaithful(init);
      RebuiltIffFaithful(last.node);
      FewerEntries(init);
      assert entries == init + [last];
      if RebuiltEntries(entries) == entries {
        assert |RebuiltEntries(entries)| == n + 1;
        assert RebuiltEntries(entries)[..n] == RebuiltEntries(init);
        assert RebuiltEntries(entries)[n] == last;
      }
    }
  }

  lemma {:induction false} ItemsIffFaithful(items: seq<Tree>)
    ensures RebuiltItems(items) == items <==> FaithfulItems(items)
    decreases items
  {
    if items != [] {
      var n, init, last := |items| - 1, items[..|items|-1], items[|items|-1];
      var kept := if last.Map? then WithoutPadding(init) else init;
      RebuiltIffFaithful(last);
      ItemsIffFaithful(kept);
      if Rebuilt(last) == Some(last) {
        if last.Map? { BeforeAMap(items); } else { BeforeAScalar(items); }
      } else if RebuiltItems(items) == items {
        TrailingItemsHaveNoRows(items);
      }
    }
  }

  /** The round trip of the whole configuration: nothing is lost exactly when every
      node has a path of its own and every node below the root is faithful. */
  lemma RoundTripIff(entries: seq<Entry>)
    ensures Replay(Map([]), Flatten(Map(entries), "")) == Some(Map(entries)) <==> AddressableEntries(entries) && FaithfulEntries(entries)
  {
    if AddressableEntries(entries) {
      FlattenThenReplay(entries);
      EntriesIffFaithful(entries);
    } else if Replay(Map([]), Flatten(Map(entries), "")) == Some(Map(entries)) {
      ReplayIsAddressable(Map([]), Flatten(Map(entries), ""));
    }
  }

  /** It fails for a null scalar, which comes back as an empty one. */
  lemma NullDoesNotComeBack(key: string)
    requires key != "" && KeyText(key)
    ensures Replay(Map([]), Flatten(Map([Entry(key, Leaf(None))]), "")) == Some(Map([Entry(key, Leaf(Some("")))]))
    ensures Map([Entry(key, Leaf(Some("")))]) != Map([Entry(key, Leaf(None))])
  {
    var e := Entry(key, Leaf(None));
    assert [e][..0] == [] && Keys([e][..0]) == [] && Addressable(e.node);
    assert AddressableEntries([e][..0]);
    assert [] + [Entry(key, Leaf(Some("")))] == [Entry(key, Leaf(Some("")))];
    FlattenThenReplay([e]);
  }

  /** An empty sequence comes back as the scalar `[]`. */
  lemma EmptySequenceBecomesText(key: string)
    requires key != "" && KeyText(key)
    ensures Replay(Map([]), Flatten(Map([Entry(key, Seq([]))]), "")) == Some(Map([Entry(key, Leaf(Some("[]")))]))
  {
    var e := Entry(key, Seq([]));
    assert [e][..0] == [] && Keys([e][..0]) == [] && Addressable(e.node);
    assert AddressableEntries([e][..0]);
    assert [] + [Entry(key, Leaf(Some("[]")))] == [Entry(key, Leaf(Some("[]")))];
    FlattenThenReplay([e]);
  }

  /** A simple sufficient condition: every scalar has a value, and no map or
      sequence is empty. */
  predicate Complete(t: Tree)
    decreases t
  {
    match t
    case Leaf(value) => value.Some?
    case Map(entries) => entries != [] && forall k :: 0 <= k < |entries| ==> Complete(entries[k].node)
    case Seq(items) => items != [] && forall k :: 0 <= k < |items| ==> Complete(items[k])
  }

  lemma {:induction false} CompleteIsFaithful(t: Tree)
    requires Complete(t)
    ensures Faithful(t)
    decreases t
  {
    match t
    case Leaf(_) =>
    case Map(entries) => CompleteEntries(entries);
    case Seq(items) => CompleteItems(items);
  }

  lemma {:induction false} CompleteEntries(entries: seq<Entry>)
    requires forall k :: 0 <= k < |entries| ==> Complete(entries[k].node)
    ensures FaithfulEntries(entries)
    decreases entries
  {
    if entries != [] {
      CompleteEntries(entries[..|entries|-1]);
      CompleteIsFaithful(entries[|entries|-1].node);
    }
  }

  lemma {:induction false} CompleteItems(items: seq<Tree>)
    requires forall k :: 0 <= k < |items| ==> Complete(items[k])
    ensures FaithfulItems(items)
    decreases items
  {
    if items != [] {
      var init := items[..|items|-1];
      CompleteItems(init);
      CompleteIsFaithful(items[|items|-1]);
      assert init != [] ==> init[|init|-1] == items[|items|-2] && Complete(items[|items|-2]);
      WithoutPaddingFinds(init, |init|);
      assert init[..|init|] == init;
    }
  }

  /** The configuration comes back exactly. */
  lemma CompleteRoundTrip(entries: seq<Entry>)
    requires AddressableEntries(entries) && forall k :: 0 <= k < |entries| ==> Complete(entries[k].node)
    ensures Replay(Map([]), Flatten(Map(entries), "")) == Some(Map(entries))
  {
    CompleteEntries(entries);
    RoundTripIff(entries);
  }
}
