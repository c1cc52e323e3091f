/** Deep merge of configuration trees (src/config/ConfigSource.cpp). */
module Merging {
  import opened Wrappers
  import opened Sequences
  import opened ConfigTree

  /** Maps are merged key by key; anything else is replaced by the source. */
  function Merge(dst: Tree, src: Tree): Tree
    decreases src
  {
    if dst.Map? && src.Map? then Map(MergeEntries(dst.entries, src.entries)) else src
  }

  /** New keys are appended in the order of the source. */
  function MergeEntries(dst: seq<Entry>, src: seq<Entry>): seq<Entry>
    decreases src
  {
    if src == [] then dst
    else
      var before, last := MergeEntries(dst, src[..|src|-1]), src[|src|-1];
      var k := Find(before, last.key);
      if k < |before| then before[k := before[k].(node := Merge(before[k].node, last.node))] else before + [last]
  }

  // ----- maps as keyed collections ------------------------------------------------------

  function NodeOf(entries: seq<Entry>, key: string): Option<Tree> {
    var k := Find(entries, key);
    if k < |entries| then Some(entries[k].node) else None
  }

  /** No map has a key twice, as YAML demands. */
  predicate WellKeyed(t: Tree)
    decreases t
  {
    match t
    case Leaf(_) => true
    case Map(entries) => Distinct(Keys(entries)) && forall k :: 0 <= k < |entries| ==> WellKeyed(entries[k].node)
    case Seq(items) => forall k :: 0 <= k < |items| ==> WellKeyed(items[k])
  }

  lemma {:induction false} KeysAt(entries: seq<Entry>)
    ensures |Keys(entries)| == |entries| && forall k :: 0 <= k < |entries| ==> Keys(entries)[k] == entries[k].key
  {
    if entries != [] { KeysAt(entries[..|entries|-1]); }
  }

  lemma FindIffKey(entries: seq<Entry>, key: string)
    ensures NodeOf(entries, key).Some? <==> key in Keys(entries)
  {
    KeysAt(entries);
    var k := Find(entries, key);
    if k < |entries| { assert Keys(entries)[k] == key; }
    if key in Keys(entries) {
      var j :| 0 <= j < |entries| && Keys(entries)[j] == key;
      assert entries[j].key == key;
    }
  }

  lemma {:induction false} NodeAt(entries: seq<Entry>, k: nat)
    requires k < |entries| && Distinct(Keys(entries))
    ensures Find(entries, entries[k].key) == k && NodeOf(entries, entries[k].key) == Some(entries[k].node)
  {
    KeysAt(entries);
    DistinctAt(Keys(entries));
  }

  /** Maps with the same keys in the same order and the same nodes are equal. */
  lemma SameMaps(a: seq<Entry>, b: seq<Entry>)
    requires Keys(a) == Keys(b) && Distinct(Keys(a))
    requires forall key :: key in Keys(a) ==> NodeOf(a, key) == NodeOf(b, key)
    ensures a == b
  {
    KeysAt(a);
    KeysAt(b);
    forall k | 0 <= k < |a| ensures a[k] == b[k] {
      NodeAt(a, k);
      NodeAt(b, k);
      assert Keys(a)[k] == Keys(b)[k];
    }
  }

  // ----- what a merged map holds ------------------------------------------------------------

  /** The node of one key in the merged map. */
  function Combine(x: Option<Tree>, y: Option<Tree>): Option<Tree> {
    if y.None? then x else if x.None? then y else Some(Merge(x.value, y.value))
  }

  function Without(xs: seq<string>, ys: seq<string>): seq<string> {
    if xs == [] then []
    else Without(xs[..|xs|-1], ys) + if xs[|xs|-1] in ys then [] else [xs[|xs|-1]]
  }

  lemma NodeOfAppended(entries: seq<Entry>, e: Entry, key: string)
    requires e.key !in Keys(entries)
    ensures NodeOf(entries + [e], key) == if key == e.key then Some(e.node) else NodeOf(entries, key)
  {
    FindIffKey(entries, e.key);
    var k, k' := Find(entries, key), Find(entries + [e], key);
    if k < |entries| {
      assert (entries + [e])[k].key == key;
      assert k' < |entries| ==> entries[k'].key == key;
    } else if key == e.key {
      assert (entries + [e])[|entries|].key == key;
    }
  }

  lemma NodeOfReplaced(entries: seq<Entry>, k: nat, node: Tree, key: string)
    requires k < |entries| && k == Find(entries, entries[k].key)
    ensures NodeOf(entries[k := entries[k].(node := node)], key) == if key == entries[k].key then Some(node) else NodeOf(entries, key)
  {
    var after := entries[k := entries[k].(node := node)];
    assert forall j :: 0 <= j < |entries| ==> after[j].key == entries[j].key;
    var i, i' := Find(entries, key), Find(after, key);
    assert i < |entries| ==> after[i].key == key;
    assert i' < |entries| ==> entries[i'].key == key;
  }

  lemma {:induction false} MergedNode(dst: seq<Entry>, src: seq<Entry>, key: string)
    requires Distinct(Keys(src))
    ensures NodeOf(MergeEntries(dst, src), key) == Combine(NodeOf(dst, key), NodeOf(src, key))
    decreases src
  {
    if src != [] {
      var init, last := src[..|src|-1], src[|src|-1];
      var before := MergeEntries(dst, init);
      assert src == init + [last] && Keys(src)[..|src|-1] == Keys(init) by { KeysAt(src); KeysAt(init); }
      MergedNode(dst, init, key);
      MergedNode(dst, init, last.key);
      FindIffKey(init, last.key);
      KeysAt(src);
      NodeOfAppended(init, last, key);
      var k := Find(before, last.key);
      if k < |before| {
        NodeOfReplaced(before, k, Merge(before[k].node, last.node), key);
      } else {
        FindIffKey(before, last.key);
        NodeOfAppended(before, last, key);
      }
    }
  }

  lemma {:induction false} MergedKeys(dst: seq<Entry>, src: seq<Entry>)
    requires Distinct(Keys(src))
    ensures Keys(MergeEntries(dst, src)) == Keys(dst) + Without(Keys(src), Keys(dst))
    decreases src
  {
    if src != [] {
      var init, last := src[..|src|-1], src[|src|-1];
      var before := MergeEntries(dst, init);
      KeysAt(src);
      KeysAt(init);
      assert Keys(src)[..|src|-1] == Keys(init);
      MergedKeys(dst, init);
      MergedNode(dst, init, last.key);
      FindIffKey(init, last.key);
      FindIffKey(dst, last.key);
      var k := Find(before, last.key);
      if k < |before| {
        SameKeys(before, before[k := before[k].(node := Merge(before[k].node, last.node))]);
        assert Without(Keys(init), Keys(dst)) + [] == Without(Keys(init), Keys(dst));
      } else {
        assert (before + [last])[..|before|] == before;
      }
    }
  }

  lemma SameKeys(a: seq<Entry>, b: seq<Entry>)
    requires |a| == |b| && forall j :: 0 <= j < |a| ==> a[j].key == b[j].key
    ensures Keys(a) == Keys(b)
  {
    KeysAt(a);
    KeysAt(b);
  }

  lemma {:induction false} WithoutIs(xs: seq<string>, ys: seq<string>, x: string)
    ensures x in Without(xs, ys) <==> x in xs && x !in ys
  {
    if xs != [] {
      WithoutIs(xs[..|xs|-1], ys, x);
      assert xs == xs[..|xs|-1] + [xs[|xs|-1]];
    }
  }

  lemma {:induction false} DistinctMerge(xs: seq<string>, ys: seq<string>)
    requires Distinct(xs) && Distinct(ys)
    ensures Distinct(xs + Without(ys, xs))
  {
    if ys == [] {
      assert xs + Without(ys, xs) == xs;
    } else {
      var init, last := ys[..|ys|-1], ys[|ys|-1];
      DistinctMerge(xs, init);
      WithoutIs(init, xs, last);
      if last in xs {
        assert Without(ys, xs) == Without(init, xs);
      } else {
        assert (xs + Without(ys, xs))[..|xs + Without(ys, xs)|-1] == xs + Without(init, xs);
      }
    }
  }

  lemma {:induction false} MergeKeepsKeys(a: Tree, b: Tree)
    requires WellKeyed(a) && WellKeyed(b)
    ensures WellKeyed(Merge(a, b))
    decreases b
  {
    if a.Map? && b.Map? {
      var m := MergeEntries(a.entries, b.entries);
      MergedKeys(a.entries, b.entries);
      DistinctMerge(Keys(a.entries), Keys(b.entries));
      forall k | 0 <= k < |m| ensures WellKeyed(m[k].node) {
        NodeAt(m, k);
        var key := m[k].key;
        MergedNode(a.entries, b.entries, key);
        var i, j := Find(a.entries, key), Find(b.entries, key);
        if i < |a.entries| && j < |b.entries| { MergeKeepsKeys(a.entries[i].node, b.entries[j].node); }
      }
    }
  }
}
