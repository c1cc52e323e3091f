/** Whatever assignments by path build is addressable: every node of it has a path. */
module Addressing {
  import opened Wrappers
  import opened PathSyntax
  import opened ConfigTree
  import opened Assignment
  import opened Flattening

  // ----- entries ------------------------------------------------------------------

  lemma {:induction false} EntryIsAddressable(entries: seq<Entry>, k: nat)
    requires AddressableEntries(entries) && k < |entries|
    ensures Addressable(entries[k].node)
  {
    if k < |entries| - 1 { EntryIsAddressable(entries[..|entries|-1], k); }
  }

  lemma {:induction false} KeyIsFound(entries: seq<Entry>, key: string)
    ensures key in Keys(entries) ==> Find(entries, key) < |entries|
  {
    if entries != [] {
      var init := entries[..|entries|-1];
      KeyIsFound(init, key);
      if key in Keys(entries) && key in Keys(init) {
        assert entries[Find(init, key)].key == key;
      }
    }
  }

  lemma {:induction false} EntryReplaced(entries: seq<Entry>, k: nat, node: Tree)
    requires AddressableEntries(entries) && k < |entries| && Addressable(node)
    ensures var after := entries[k := entries[k].(node := node)]; AddressableEntries(after) && Keys(after) == Keys(entries)
  {
    var init := entries[..|entries|-1];
    var after := entries[k := entries[k].(node := node)];
    if k < |entries| - 1 {
      EntryReplaced(init, k, node);
      assert after[..|entries|-1] == init[k := init[k].(node := node)];
    } else {
      assert after[..|entries|-1] == init;
    }
  }

  lemma PutIsAddressable(entries: seq<Entry>, key: string, node: Option<Tree>)
    requires AddressableEntries(entries) && key != "" && KeyText(key) && (node.Some? ==> Addressable(node.value))
    ensures Addressable(Put(entries, Find(entries, key), key, node))
  {
    var k := Find(entries, key);
    if node.Some? {
      if k < |entries| {
        EntryReplaced(entries, k, node.value);
      } else {
        KeyIsFound(entries, key);
        assert (entries + [Entry(key, node.value)])[..|entries|] == entries;
      }
    }
  }

  // ----- items --------------------------------------------------------------------

  lemma {:induction false} ItemsAreAddressable(items: seq<Tree>)
    ensures AddressableItems(items) <==>
            (items != [] ==> |items| <= INDEX_LIMIT) && forall k :: 0 <= k < |items| ==> !items[k].Seq? && Addressable(items[k])
  {
    if items != [] {
      var init := items[..|items|-1];
      ItemsAreAddressable(init);
      assert forall k :: 0 <= k < |init| ==> init[k] == items[k];
    }
  }

  lemma ItemAssigned(items: seq<Tree>, index: nat, padding: Tree, item: Tree)
    requires AddressableItems(items) && index < INDEX_LIMIT && !padding.Seq? && Addressable(padding) && !item.Seq? && Addressable(item)
    ensures AddressableItems(Extend(items, index, padding)[index := item])
  {
    ItemsAreAddressable(items);
    ItemsAreAddressable(Extend(items, index, padding)[index := item]);
  }

  // ----- assignments ------------------------------------------------------------------

  lemma {:induction false} AssignKeepsAddressable(t: Tree, segments: seq<Segment>, value: string, grow: bool)
    requires segments != [] && Nameable(segments) && Addressable(t)
    ensures Addressable(Assign(t, segments, value, grow).node)
    decreases |segments|, 2
  {
    if t.Map? {
      var key := segments[0].key;
      var k := Find(t.entries, key);
      if k < |t.entries| { EntryIsAddressable(t.entries, k); }
      var slot := if k < |t.entries| then Some(t.entries[k].node) else None;
      ChildStaysAddressable(slot, segments, value, grow);
      PutIsAddressable(t.entries, key, AssignChild(slot, segments, value, grow).node);
    }
  }

  lemma {:induction false} ChildStaysAddressable(slot: Option<Tree>, segments: seq<Segment>, value: string, grow: bool)
    requires segments != [] && Nameable(segments) && (slot.Some? ==> Addressable(slot.value))
    ensures var node := AssignChild(slot, segments, value, grow).node; node.Some? ==> Addressable(node.value)
    decreases |segments|, 1
  {
    if segments[0].index.None? {
      NodeStaysAddressable(slot, segments, value, grow);
    } else if (slot.None? && grow) || (slot.Some? && slot.value.Seq?) {
      var items := if slot.None? then [] else slot.value.items;
      var index := segments[0].index.value;
      var padding := if |segments| == 1 then Leaf(None) else Map([]);
      if grow || index < |items| {
        ItemsAreAddressable(items);
        var item := Extend(items, index, padding)[index];
        NodeStaysAddressable(Some(item), segments, value, grow);
        ItemAssigned(items, index, padding, AssignNode(Some(item), segments, value, grow).node.value);
      }
    }
  }

  lemma {:induction false} NodeStaysAddressable(slot: Option<Tree>, segments: seq<Segment>, value: string, grow: bool)
    requires segments != [] && Nameable(segments) && (slot.Some? ==> Addressable(slot.value))
    ensures var node := AssignNode(slot, segments, value, grow).node;
            node.Some? ==> Addressable(node.value) && (node.value.Seq? ==> slot.Some? && slot.value.Seq?)
    decreases |segments|, 0
  {
    var rest := segments[1..];
    if rest != [] {
      var node := if slot.None? then Map([]) else slot.value;
      if node.Map? {
        AssignKeepsAddressable(node, rest, value, grow);
      } else if node.Seq? && |node.items| <= 1 {
        var item := if node.items == [] then Map([]) else node.items[0];
        ItemsAreAddressable(node.items);
        AssignKeepsAddressable(item, rest, value, grow);
        ItemsAreAddressable([Assign(item, rest, value, grow).node]);
      }
    }
  }

  /** Replaying any table on an addressable tree leaves an addressable one. */
  lemma {:induction false} ReplayIsAddressable(t: Tree, rows: seq<TextRow>)
    requires Addressable(t) && Replay(t, rows).Some?
    ensures Addressable(Replay(t, rows).value)
  {
    if rows != [] {
      var init, last := rows[..|rows|-1], rows[|rows|-1];
      ReplayIsAddressable(t, init);
      ParsePrintParse(last.path);
      AssignKeepsAddressable(Replay(t, init).value, Parse(last.path).value, last.text, true);
    }
  }
}
