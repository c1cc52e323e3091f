/** The flat table of a configuration, and rebuilding the configuration from it
    (src/cli/ConfigPrinter.cpp, src/config/ConfigOverride.cpp). */
module Flattening {
  import opened Wrappers
  import opened PathSyntax
  import opened ConfigTree
  import opened Assignment

  datatype TextRow = TextRow(path: string, text: string)

  function TextOf(value: Option<string>): string { if value.Some? then value.value else "" }

  /** The rows below a node that stands at a path. */
  function Flatten(t: Tree, path: string): seq<TextRow>
    decreases t
  {
    match t
    case Leaf(value) => if path == "" then [] else [TextRow(path, TextOf(value))]
    case Map(entries) => FlattenEntries(entries, path)
    case Seq(items) => FlattenItems(items, path) + if items == [] then [TextRow(path, "[]")] else []
  }

  function KeyPath(path: string, key: string): string { if path == "" then key else path + "." + key }

  function ItemPath(path: string, index: nat): string { path + "[" + Decimal(index) + "]" }

  function FlattenEntries(entries: seq<Entry>, path: string): seq<TextRow>
    decreases entries
  {
    if entries == [] then []
    else
      var last := entries[|entries|-1];
      FlattenEntries(entries[..|entries|-1], path) + Flatten(last.node, KeyPath(path, last.key))
  }

  function FlattenItems(items: seq<Tree>, path: string): seq<TextRow>
    decreases items
  {
    if items == [] then []
    else FlattenItems(items[..|items|-1], path) + Flatten(items[|items|-1], ItemPath(path, |items| - 1))
  }

  lemma EntriesSoFar(before: seq<TextRow>, entries: seq<Entry>, k: nat, path: string)
    requires k < |entries|
    ensures before + FlattenEntries(entries[..k + 1], path) ==
            before + FlattenEntries(entries[..k], path) + Flatten(entries[k].node, KeyPath(path, entries[k].key))
  {
    assert entries[..k + 1][..k] == entries[..k];
  }

  lemma ItemsSoFar(before: seq<TextRow>, items: seq<Tree>, k: nat, path: string)
    requires k < |items|
    ensures before + FlattenItems(items[..k + 1], path) ==
            before + FlattenItems(items[..k], path) + Flatten(items[k], ItemPath(path, k))
  {
    assert items[..k + 1][..k] == items[..k];
  }

  /** The recursive walk that appends to one shared list of rows. */
  class Table {
    var rows: seq<TextRow>

    constructor ()
      ensures rows == []
    {
      rows := [];
    }

    method Collect(node: Tree, path: string)
      modifies this
      ensures rows == old(rows) + Flatten(node, path)
      decreases node
    {
      match node
      case Map(entries) =>
        CollectEntries(entries, path);
      case Seq(items) =>
        CollectItems(items, path);
        if |items| == 0 { rows := rows + [TextRow(path, "[]")]; }
      case Leaf(value) =>
        if path != "" { rows := rows + [TextRow(path, TextOf(value))]; }
    }

    method CollectEntries(entries: seq<Entry>, path: string)
      modifies this
      ensures rows == old(rows) + FlattenEntries(entries, path)
      decreases entries
    {
      for k := 0 to |entries|
        invariant rows == old(rows) + FlattenEntries(entries[..k], path)
      {
        EntriesSoFar(old(rows), entries, k, path);
        Collect(entries[k].node, if path == "" then entries[k].key else path + "." + entries[k].key);
      }
      assert entries[..|entries|] == entries;
    }

    method CollectItems(items: seq<Tree>, path: string)
      modifies this
      ensures rows == old(rows) + FlattenItems(items, path)
      decreases items
    {
      for idx := 0 to |items|
        invariant rows == old(rows) + FlattenItems(items[..idx], path)
      {
        ItemsSoFar(old(rows), items, idx, path);
        Collect(items[idx], path + "[" + Decimal(idx) + "]");
      }
      assert items[..|items|] == items;
    }
  }

  /** Applies rows, in order, as assignments; None when one of them fails. */
  function Replay(t: Tree, rows: seq<TextRow>): Option<Tree> {
    if rows == [] then Some(t)
    else
      var before := Replay(t, rows[..|rows|-1]);
      var last := rows[|rows|-1];
      if before.None? || Parse(last.path).Err? || Parse(last.path).value == [] then None
      else
        var o := Assign(before.value, Parse(last.path).value, last.text, true);
        if o.error.None? then Some(o.node) else None
  }

  // ----- which trees have unambiguous paths -----------------------------------------------

  /** Keys are distinct, not empty and free of `.` and `[`; no sequence stands
      directly in a sequence. */
  predicate Addressable(t: Tree)
    decreases t
  {
    match t
    case Leaf(_) => true
    case Map(entries) => AddressableEntries(entries)
    case Seq(items) => AddressableItems(items)
  }

  predicate AddressableEntries(entries: seq<Entry>)
    decreases entries
  {
    entries == [] ||
    (var init, last := entries[..|entries|-1], entries[|entries|-1];
     AddressableEntries(init) && last.key !in Keys(init) && last.key != "" && KeyText(last.key) && Addressable(last.node))
  }

  predicate AddressableItems(items: seq<Tree>)
    decreases items
  {
    items == [] ||
    (var init, last := items[..|items|-1], items[|items|-1];
     AddressableItems(init) && |items| <= INDEX_LIMIT && !last.Seq? && Addressable(last))
  }

  // ----- what is rebuilt ---------------------------------------------------------------------

  /** What the rows of a node rebuild; None when it has no rows. A missing value
      becomes the empty text, an empty sequence the text `[]`. */
  function Rebuilt(t: Tree): Option<Tree>
    decreases t
  {
    match t
    case Leaf(value) => Some(Leaf(Some(TextOf(value))))
    case Map(entries) => if RebuiltEntries(entries) == [] then None else Some(Map(RebuiltEntries(entries)))
    case Seq(items) =>
      if items == [] then Some(Leaf(Some("[]")))
      else if RebuiltItems(items) == [] then None
      else Some(Seq(RebuiltItems(items)))
  }

  /** Entries without rows disappear. */
  function RebuiltEntries(entries: seq<Entry>): seq<Entry>
    decreases entries
  {
    if entries == [] then []
    else
      var last := entries[|entries|-1];
      RebuiltEntries(entries[..|entries|-1]) + if Rebuilt(last.node).Some? then [Entry(last.key, Rebuilt(last.node).value)] else []
  }

  /** The padding that assigning an item creates in front of it. */
  function Padding(item: Tree): Tree { if item.Map? then Map([]) else Leaf(None) }

  /** Items without rows become padding, or disappear at the end. */
  function RebuiltItems(items: seq<Tree>): (r: seq<Tree>)
    ensures |r| <= |items|
    decreases items
  {
    if items == [] then []
    else
      var index, last := |items| - 1, items[|items|-1];
      var before := RebuiltItems(items[..index]);
      if Rebuilt(last).None? then before
      else Extend(before, index, Padding(last))[index := Rebuilt(last).value]
  }

  // ----- rows as segments -----------------------------------------------------------------------

  datatype Row = Row(segments: seq<Segment>, text: string)

  function Lift(s: Segment, rows: seq<Row>): seq<Row> {
    if rows == [] then [] else Lift(s, rows[..|rows|-1]) + [Row([s] + rows[|rows|-1].segments, rows[|rows|-1].text)]
  }

  function RowsOfEntries(entries: seq<Entry>): seq<Row>
    decreases entries, 1
  {
    if entries == [] then []
    else RowsOfEntries(entries[..|entries|-1]) + RowsOfChild(entries[|entries|-1].key, entries[|entries|-1].node)
  }

  function RowsOfChild(key: string, node: Tree): seq<Row>
    decreases node, 1
  {
    match node
    case Leaf(value) => [Row([Segment(key, None)], TextOf(value))]
    case Map(entries) => Lift(Segment(key, None), RowsOfEntries(entries))
    case Seq(items) => if items == [] then [Row([Segment(key, None)], "[]")] else RowsOfItems(key, items)
  }

  function RowsOfItems(key: string, items: seq<Tree>): seq<Row>
    decreases items, 1
  {
    if items == [] then []
    else RowsOfItems(key, items[..|items|-1]) + RowsOfItem(Segment(key, Some(|items| - 1)), items[|items|-1])
  }

  function RowsOfItem(s: Segment, item: Tree): seq<Row>
    decreases item, 0
  {
    match item
    case Leaf(value) => [Row([s], TextOf(value))]
    case Map(entries) => Lift(s, RowsOfEntries(entries))
    case Seq(_) => []
  }

  ghost predicate Below(s: Segment, rows: seq<Row>) { forall r :: r in rows ==> r.segments != [] && r.segments[0] == s }

  ghost predicate BelowKey(key: string, rows: seq<Row>) { forall r :: r in rows ==> r.segments != [] && r.segments[0].key == key }

  ghost predicate Proper(rows: seq<Row>) { forall r :: r in rows ==> r.segments != [] && Nameable(r.segments) }

  /** The assignments of some rows to a map, stopping at the first failure. */
  function MapSteps(t: Tree, rows: seq<Row>): Outcome<Tree>
    requires forall r :: r in rows ==> r.segments != []
  {
    if rows == [] then Outcome(t, None)
    else
      var o := MapSteps(t, rows[..|rows|-1]);
      var last := rows[|rows|-1];
      if o.error.Some? then o else Assign(o.node, last.segments, last.text, true)
  }

  /** The same, seen from the child that all the rows are about. */
  function ChildSteps(slot: Option<Tree>, rows: seq<Row>): Outcome<Option<Tree>>
    requires forall r :: r in rows ==> r.segments != []
  {
    if rows == [] then Outcome(slot, None)
    else
      var o := ChildSteps(slot, rows[..|rows|-1]);
      var last := rows[|rows|-1];
      if o.error.Some? then o else AssignChild(o.node, last.segments, last.text, true)
  }

  lemma {:induction false} MapStepsAppend(t: Tree, a: seq<Row>, b: seq<Row>)
    requires forall r :: r in a + b ==> r.segments != []
    requires forall r :: r in a ==> r.segments != []
    requires forall r :: r in b ==> r.segments != []
    ensures MapSteps(t, a + b) == if MapSteps(t, a).error.Some? then MapSteps(t, a) else MapSteps(MapSteps(t, a).node, b)
  {
    if b == [] {
      assert a + b == a;
    } else {
      assert (a + b)[..|a + b|-1] == a + b[..|b|-1];
      assert forall r :: r in a + b[..|b|-1] ==> r in a + b;
      MapStepsAppend(t, a, b[..|b|-1]);
    }
  }

  lemma {:induction false} ChildStepsAppend(slot: Option<Tree>, a: seq<Row>, b: seq<Row>)
    requires forall r :: r in a + b ==> r.segments != []
    requires forall r :: r in a ==> r.segments != []
    requires forall r :: r in b ==> r.segments != []
    ensures ChildSteps(slot, a + b) == if ChildSteps(slot, a).error.Some? then ChildSteps(slot, a) else ChildSteps(ChildSteps(slot, a).node, b)
  {
    if b == [] {
      assert a + b == a;
    } else {
      assert (a + b)[..|a + b|-1] == a + b[..|b|-1];
      assert forall r :: r in a + b[..|b|-1] ==> r in a + b;
      ChildStepsAppend(slot, a, b[..|b|-1]);
    }
  }

  /** Rows below one key change only the child of that key. */
  lemma {:induction false} StepsBelowKey(entries: seq<Entry>, key: string, rows: seq<Row>)
    requires BelowKey(key, rows)
    ensures var k := Find(entries, key);
            var c := ChildSteps(if k < |entries| then Some(entries[k].node) else None, rows);
            MapSteps(Map(entries), rows) == Outcome(Put(entries, k, key, c.node), c.error)
  {
    var k := Find(entries, key);
    var slot := if k < |entries| then Some(entries[k].node) else None;
    if rows == [] {
      assert k < |entries| ==> entries[k := entries[k].(node := entries[k].node)] == entries;
    } else {
      StepsBelowKey(entries, key, rows[..|rows|-1]);
      var c := ChildSteps(slot, rows[..|rows|-1]);
      if c.error.None? {
        if c.node.Some? { FindPut(entries, k, key, c.node.value); }
        PutTwice(entries, k, key, c.node, AssignChild(c.node, rows[|rows|-1].segments, rows[|rows|-1].text, true).node);
      }
    }
  }

  lemma PutTwice(entries: seq<Entry>, k: nat, key: string, a: Option<Tree>, b: Option<Tree>)
    requires k <= |entries| && (a.Some? ==> b.Some?)
    ensures Put(Put(entries, k, key, a).entries, k, key, b) == Put(entries, k, key, b)
  {
    if a.Some? {
      if k < |entries| {
        assert entries[k := entries[k].(node := a.value)][k := entries[k].(node := b.value)] == entries[k := entries[k].(node := b.value)];
      } else {
        assert (entries + [Entry(key, a.value)])[k := Entry(key, b.value)] == entries + [Entry(key, b.value)];
      }
    }
  }

  lemma {:induction false} LiftIsBelow(s: Segment, rows: seq<Row>)
    ensures Below(s, Lift(s, rows)) && BelowKey(s.key, Lift(s, rows)) && |Lift(s, rows)| == |rows|
  {
    if rows != [] { LiftIsBelow(s, rows[..|rows|-1]); }
  }

  lemma {:induction false} RowsStartWithTheKey(key: string, items: seq<Tree>)
    ensures BelowKey(key, RowsOfItems(key, items))
  {
    if items != [] {
      RowsStartWithTheKey(key, items[..|items|-1]);
      if items[|items|-1].Map? { LiftIsBelow(Segment(key, Some(|items| - 1)), RowsOfEntries(items[|items|-1].entries)); }
    }
  }

  lemma ChildRowsStartWithTheKey(key: string, node: Tree)
    ensures BelowKey(key, RowsOfChild(key, node))
  {
    if node.Map? { LiftIsBelow(Segment(key, None), RowsOfEntries(node.entries)); }
    if node.Seq? { RowsStartWithTheKey(key, node.items); }
  }

  lemma {:induction false} EntryRowsAreNotEmpty(entries: seq<Entry>)
    ensures forall r :: r in RowsOfEntries(entries) ==> r.segments != []
  {
    if entries != [] {
      EntryRowsAreNotEmpty(entries[..|entries|-1]);
      ChildRowsStartWithTheKey(entries[|entries|-1].key, entries[|entries|-1].node);
    }
  }

  lemma AssignUnderKey(key: string, slot: Option<Tree>, segments: seq<Segment>, text: string)
    requires segments != [] && (slot.Some? ==> slot.value.Map?)
    ensures var o := Assign(if slot.Some? then slot.value else Map([]), segments, text, true);
            AssignChild(slot, [Segment(key, None)] + segments, text, true) == Outcome(Some(o.node), o.error)
  {
    assert ([Segment(key, None)] + segments)[1..] == segments;
  }

  /** Rows below a map child are that map's own assignments. */
  lemma {:induction false} StepsIntoMap(key: string, slot: Option<Tree>, rows: seq<Row>)
    requires forall r :: r in rows ==> r.segments != []
    requires slot.Some? ==> slot.value.Map?
    requires Below(Segment(key, None), Lift(Segment(key, None), rows))
    ensures var o := MapSteps(if slot.Some? then slot.value else Map([]), rows);
            ChildSteps(slot, Lift(Segment(key, None), rows)) == if rows == [] then Outcome(slot, None) else Outcome(Some(o.node), o.error)
  {
    if rows != [] {
      var s, init, last := Segment(key, None), rows[..|rows|-1], rows[|rows|-1];
      var t := if slot.Some? then slot.value else Map([]);
      LiftIsBelow(s, init);
      StepsIntoMap(key, slot, init);
      assert Lift(s, rows)[..|Lift(s, rows)|-1] == Lift(s, init);
      StaysMap(t, init);
      AssignUnderKey(key, if init == [] then slot else Some(MapSteps(t, init).node), last.segments, last.text);
    }
  }

  lemma {:induction false} StaysMap(t: Tree, rows: seq<Row>)
    requires t.Map? && forall r :: r in rows ==> r.segments != []
    ensures MapSteps(t, rows).node.Map?
  {
    if rows != [] { StaysMap(t, rows[..|rows|-1]); }
  }
}
