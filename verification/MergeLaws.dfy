/** The algebra of the deep merge. */
module MergeLaws {
  import opened Wrappers
  import opened Sequences
  import opened ConfigTree
  import opened Merging

  // ----- what every path holds afterwards ---------------------------------------------------

  /** The node a path of keys leads to. */
  function Lookup(t: Tree, path: seq<string>): Option<Tree> {
    if path == [] then Some(t)
    else if !t.Map? || NodeOf(t.entries, path[0]).None? then None
    else Lookup(NodeOf(t.entries, path[0]).value, path[1..])
  }

  /** A node that is no map stands above the path. */
  predicate Covers(t: Tree, path: seq<string>) {
    path != [] &&
    (!t.Map? || (NodeOf(t.entries, path[0]).Some? && Covers(NodeOf(t.entries, path[0]).value, path[1..])))
  }

  lemma WellKeyedChild(t: Tree, key: string)
    requires WellKeyed(t) && t.Map? && NodeOf(t.entries, key).Some?
    ensures WellKeyed(NodeOf(t.entries, key).value)
  {
  }

  /** The merged tree, path by path: where the source has a scalar or a sequence on
      the way it decides alone, elsewhere the two nodes are merged. */
  lemma {:induction false} MergedLookup(dst: Tree, src: Tree, path: seq<string>)
    requires WellKeyed(src)
    ensures Lookup(Merge(dst, src), path) ==
            if Covers(src, path) then None else Combine(Lookup(dst, path), Lookup(src, path))
    decreases |path|
  {
    if path != [] && src.Map? && dst.Map? {
      var x, y := NodeOf(dst.entries, path[0]), NodeOf(src.entries, path[0]);
      MergedNode(dst.entries, src.entries, path[0]);
      if y.Some? {
        WellKeyedChild(src, path[0]);
        if x.Some? { MergedLookup(x.value, y.value, path[1..]); }
      }
    }
    if Covers(src, path) { CoveredIsAbsent(src, path); }
  }

  lemma {:induction false} CoveredIsAbsent(t: Tree, path: seq<string>)
    requires Covers(t, path)
    ensures Lookup(t, path).None?
  {
    if t.Map? { CoveredIsAbsent(NodeOf(t.entries, path[0]).value, path[1..]); }
  }

  /** Scalars and sequences of the source win. */
  lemma RightBias(dst: Tree, src: Tree, path: seq<string>)
    requires WellKeyed(src) && Lookup(src, path).Some? && !Lookup(src, path).value.Map?
    ensures Lookup(Merge(dst, src), path) == Lookup(src, path)
  {
    MergedLookup(dst, src, path);
    if Covers(src, path) { CoveredIsAbsent(src, path); }
  }

  // ----- identity and absorption ------------------------------------------------------------------

  lemma {:induction false} WithoutNothing(xs: seq<string>)
    ensures Without(xs, []) == xs
  {
    if xs != [] { WithoutNothing(xs[..|xs|-1]); }
  }

  /** The empty map is a left and right identity on maps. */
  lemma EmptyIsIdentity(t: Tree)
    requires t.Map? && WellKeyed(t)
    ensures Merge(Map([]), t) == t && Merge(t, Map([])) == t
  {
    var none: seq<Entry> := [];
    var m := MergeEntries(none, t.entries);
    assert Keys(m) == Keys(t.entries) by {
      MergedKeys(none, t.entries);
      WithoutNothing(Keys(t.entries));
      assert [] + Keys(t.entries) == Keys(t.entries);
    }
    forall key | key in Keys(m) ensures NodeOf(m, key) == NodeOf(t.entries, key) { MergedNode(none, t.entries, key); }
    SameMaps(m, t.entries);
  }

  lemma {:induction false} WithoutAll(xs: seq<string>, ys: seq<string>)
    requires forall x :: x in xs ==> x in ys
    ensures Without(xs, ys) == []
  {
    if xs != [] { WithoutAll(xs[..|xs|-1], ys); }
  }

  lemma {:induction false} MergeWithItself(t: Tree)
    requires WellKeyed(t)
    ensures Merge(t, t) == t
    decreases t
  {
    if t.Map? {
      var es := t.entries;
      var m := MergeEntries(es, es);
      MergedKeys(es, es);
      WithoutAll(Keys(es), Keys(es));
      assert Keys(es) + [] == Keys(es);
      forall key | key in Keys(m) ensures NodeOf(m, key) == NodeOf(es, key) {
        MergedNode(es, es, key);
        FindIffKey(es, key);
        MergeWithItself(es[Find(es, key)].node);
      }
      SameMaps(m, es);
    }
  }

  /** Merging the same source again changes nothing. */
  lemma {:induction false} Absorption(a: Tree, b: Tree)
    requires WellKeyed(a) && WellKeyed(b)
    ensures Merge(Merge(a, b), b) == Merge(a, b)
    decreases b
  {
    if a.Map? && b.Map? {
      var m := MergeEntries(a.entries, b.entries);
      var mm := MergeEntries(m, b.entries);
      MergeKeepsKeys(a, b);
      MergedKeys(m, b.entries);
      forall key | key in Keys(b.entries) ensures key in Keys(m) {
        MergedNode(a.entries, b.entries, key);
        FindIffKey(b.entries, key);
        FindIffKey(m, key);
      }
      WithoutAll(Keys(b.entries), Keys(m));
      assert Keys(m) + [] == Keys(m);
      forall key | key in Keys(mm) ensures NodeOf(mm, key) == NodeOf(m, key) {
        MergedNode(m, b.entries, key);
        MergedNode(a.entries, b.entries, key);
        var i, j := Find(a.entries, key), Find(b.entries, key);
        if j < |b.entries| {
          MergeWithItself(b.entries[j].node);
          if i < |a.entries| { Absorption(a.entries[i].node, b.entries[j].node); }
        }
      }
      SameMaps(mm, m);
    } else {
      MergeWithItself(b);
    }
  }

  // ----- when a merge leaves its source as it is ------------------------------------------------------

  /** The keys of `a` are the leading keys of `c`, and so on below them. */
  predicate Shadowed(a: Tree, c: Tree)
    decreases a
  {
    a.Map? && c.Map? ==>
      Keys(a.entries) <= Keys(c.entries) && |a.entries| <= |c.entries| &&
      forall k :: 0 <= k < |a.entries| ==> Shadowed(a.entries[k].node, c.entries[k].node)
  }

  lemma {:induction false} WithoutPrefix(xs: seq<string>, ys: seq<string>)
    requires ys <= xs && Distinct(xs)
    ensures Without(xs, ys) == xs[|ys|..]
  {
    DistinctAt(xs);
    if |xs| > |ys| {
      var init := xs[..|xs|-1];
      WithoutPrefix(init, ys);
      assert xs[|xs|-1] !in ys by {
        assert forall i :: 0 <= i < |ys| ==> ys[i] == xs[i];
      }
      assert xs[|ys|..] == init[|ys|..] + [xs[|xs|-1]];
    } else {
      WithoutAll(xs, ys);
    }
  }

  /** The merged map has the source's own keys exactly when it starts with the other keys. */
  lemma PrefixKeys(ka: seq<string>, kc: seq<string>)
    requires Distinct(kc)
    ensures ka + Without(kc, ka) == kc <==> ka <= kc
  {
    if ka <= kc {
      WithoutPrefix(kc, ka);
      assert ka + kc[|ka|..] == kc;
    }
  }

  lemma {:induction false} ShadowedIff(a: Tree, c: Tree)
    requires WellKeyed(a) && WellKeyed(c)
    ensures Merge(a, c) == c <==> Shadowed(a, c)
    decreases a
  {
    if a.Map? && c.Map? {
      var m := MergeEntries(a.entries, c.entries);
      MergedKeys(a.entries, c.entries);
      PrefixKeys(Keys(a.entries), Keys(c.entries));
      KeysAt(a.entries);
      KeysAt(c.entries);
      if Keys(a.entries) <= Keys(c.entries) {
        forall k | 0 <= k < |a.entries|
          ensures a.entries[k].key == c.entries[k].key
          ensures Merge(a.entries[k].node, c.entries[k].node) == c.entries[k].node <==> Shadowed(a.entries[k].node, c.entries[k].node)
        {
          assert Keys(a.entries)[k] == Keys(c.entries)[k];
          NodeAt(a.entries, k);
          NodeAt(c.entries, k);
          ShadowedIff(a.entries[k].node, c.entries[k].node);
        }
        ShadowedNodes(a.entries, c.entries);
      }
    }
  }

  /** The first keys of `c` are those of `a`. */
  predicate Leads(a: seq<Entry>, c: seq<Entry>) { |a| <= |c| && forall k :: 0 <= k < |a| ==> a[k].key == c[k].key }

  lemma ShadowNode(a: seq<Entry>, c: seq<Entry>, k: nat)
    requires Distinct(Keys(a)) && Distinct(Keys(c)) && Leads(a, c) && k < |c|
    ensures NodeOf(c, c[k].key) == Some(c[k].node)
    ensures NodeOf(MergeEntries(a, c), c[k].key) == Some(if k < |a| then Merge(a[k].node, c[k].node) else c[k].node)
  {
    KeysAt(a);
    KeysAt(c);
    NodeAt(c, k);
    MergedNode(a, c, c[k].key);
    if k < |a| {
      assert Keys(a)[k] == Keys(c)[k];
      NodeAt(a, k);
    } else {
      FindIffKey(a, c[k].key);
      DistinctAt(Keys(c));
      assert forall i :: 0 <= i < |a| ==> Keys(a)[i] == Keys(c)[i] != Keys(c)[k];
    }
  }

  /** Every node of `a` is absorbed by the node of `c` in the same place. */
  predicate NodesAbsorbed(a: seq<Entry>, c: seq<Entry>)
    requires |a| <= |c|
  {
    forall k :: 0 <= k < |a| ==> Merge(a[k].node, c[k].node) == c[k].node
  }

  lemma ShadowedNodes(a: seq<Entry>, c: seq<Entry>)
    requires Distinct(Keys(a)) && Distinct(Keys(c)) && Leads(a, c)
    ensures MergeEntries(a, c) == c <==> NodesAbsorbed(a, c)
  {
    if MergeEntries(a, c) == c {
      forall k | 0 <= k < |a| ensures Merge(a[k].node, c[k].node) == c[k].node { ShadowNode(a, c, k); }
    }
    if NodesAbsorbed(a, c) { AbsorbedMaps(a, c); }
  }

  lemma AbsorbedMaps(a: seq<Entry>, c: seq<Entry>)
    requires Distinct(Keys(a)) && Distinct(Keys(c)) && Leads(a, c) && NodesAbsorbed(a, c)
    ensures MergeEntries(a, c) == c
  {
    MergedKeys(a, c);
    KeysAt(a);
    KeysAt(c);
    PrefixKeys(Keys(a), Keys(c));
    forall key | key in Keys(MergeEntries(a, c)) ensures NodeOf(MergeEntries(a, c), key) == NodeOf(c, key) {
      AbsorbedNode(a, c, key);
    }
    SameMaps(MergeEntries(a, c), c);
  }

  lemma AbsorbedNode(a: seq<Entry>, c: seq<Entry>, key: string)
    requires Distinct(Keys(a)) && Distinct(Keys(c)) && Leads(a, c) && NodesAbsorbed(a, c) && key in Keys(c)
    ensures NodeOf(MergeEntries(a, c), key) == NodeOf(c, key)
  {
    KeysAt(c);
    var k :| 0 <= k < |c| && Keys(c)[k] == key;
    ShadowNode(a, c, k);
  }

  // ----- associativity -----------------------------------------------------------------------------------

  /** Wherever the outer trees hold maps and the middle one does not, the first is
      shadowed by the last. */
  predicate Associates(a: Tree, b: Tree, c: Tree)
    decreases b
  {
    if a.Map? && c.Map? && !b.Map? then Shadowed(a, c)
    else
      a.Map? && b.Map? && c.Map? ==>
        forall k :: 0 <= k < |b.entries| ==>
          var x, z := NodeOf(a.entries, b.entries[k].key), NodeOf(c.entries, b.entries[k].key);
          x.Some? && z.Some? ==> Associates(x.value, b.entries[k].node, z.value)
  }

  lemma {:induction false} WithoutConcat(xs: seq<string>, ys: seq<string>, zs: seq<string>)
    ensures Without(xs + ys, zs) == Without(xs, zs) + Without(ys, zs)
  {
    if ys == [] {
      assert xs + ys == xs;
    } else {
      assert (xs + ys)[..|xs + ys|-1] == xs + ys[..|ys|-1];
      WithoutConcat(xs, ys[..|ys|-1], zs);
    }
  }

  lemma {:induction false} WithoutTwice(xs: seq<string>, ys: seq<string>, zs: seq<string>)
    ensures Without(Without(xs, ys), zs) == Without(xs, zs + Without(ys, zs))
  {
    if xs != [] {
      var init, last := xs[..|xs|-1], xs[|xs|-1];
      WithoutTwice(init, ys, zs);
      WithoutIs(ys, zs, last);
      WithoutConcat(Without(init, ys), if last in ys then [] else [last], zs);
      assert Without([last], zs) == if last in zs then [] else [last] by { assert [last][..0] == []; }
    }
  }

  /** The key order is the same either way. */
  lemma KeyOrder(ka: seq<string>, kb: seq<string>, kc: seq<string>)
    ensures (ka + Without(kb, ka)) + Without(kc, ka + Without(kb, ka)) == ka + Without(kb + Without(kc, kb), ka)
  {
    WithoutConcat(kb, Without(kc, kb), ka);
    WithoutTwice(kc, kb, ka);
    var x, y := Without(kb, ka), Without(kc, ka + Without(kb, ka));
    assert (ka + x) + y == ka + (x + y);
  }

  lemma KeyOrderAssociates(a: seq<Entry>, b: seq<Entry>, c: seq<Entry>)
    requires Distinct(Keys(a)) && Distinct(Keys(b)) && Distinct(Keys(c))
    ensures Distinct(Keys(MergeEntries(a, b))) && Distinct(Keys(MergeEntries(b, c)))
    ensures Keys(MergeEntries(MergeEntries(a, b), c)) == Keys(MergeEntries(a, MergeEntries(b, c)))
    ensures Distinct(Keys(MergeEntries(MergeEntries(a, b), c)))
  {
    MergedDistinct(a, b);
    MergedDistinct(b, c);
    var ab, bc := MergeEntries(a, b), MergeEntries(b, c);
    MergedDistinct(ab, c);
    MergedDistinct(a, bc);
    KeyOrder(Keys(a), Keys(b), Keys(c));
  }

  lemma MergedDistinct(a: seq<Entry>, b: seq<Entry>)
    requires Distinct(Keys(a)) && Distinct(Keys(b))
    ensures Keys(MergeEntries(a, b)) == Keys(a) + Without(Keys(b), Keys(a)) && Distinct(Keys(MergeEntries(a, b)))
  {
    MergedKeys(a, b);
    DistinctMerge(Keys(a), Keys(b));
  }

  /** Merging is associative, key order included, exactly when `Associates` holds. */
  lemma {:induction false} AssociativityIff(a: Tree, b: Tree, c: Tree)
    requires WellKeyed(a) && WellKeyed(b) && WellKeyed(c)
    ensures Merge(Merge(a, b), c) == Merge(a, Merge(b, c)) <==> Associates(a, b, c)
    decreases b
  {
    if a.Map? && c.Map? && !b.Map? {
      ShadowedIff(a, c);
    } else if a.Map? && b.Map? && c.Map? {
      forall k | 0 <= k < |b.entries|
        ensures var x, y, z := NodeOf(a.entries, b.entries[k].key), b.entries[k].node, NodeOf(c.entries, b.entries[k].key);
                NodesAssociate(x, y, z) <==> (x.Some? && z.Some? ==> Associates(x.value, y, z.value))
      {
        var x, z := NodeOf(a.entries, b.entries[k].key), NodeOf(c.entries, b.entries[k].key);
        if x.Some? && z.Some? { AssociativityIff(x.value, b.entries[k].node, z.value); }
      }
      MapsAssociateIff(a.entries, b.entries, c.entries);
    }
  }

  lemma MergedTwice(a: seq<Entry>, b: seq<Entry>, c: seq<Entry>, key: string)
    requires Distinct(Keys(a)) && Distinct(Keys(b)) && Distinct(Keys(c))
    ensures NodeOf(MergeEntries(MergeEntries(a, b), c), key) == Combine(Combine(NodeOf(a, key), NodeOf(b, key)), NodeOf(c, key))
    ensures NodeOf(MergeEntries(a, MergeEntries(b, c)), key) == Combine(NodeOf(a, key), Combine(NodeOf(b, key), NodeOf(c, key)))
  {
    MergedDistinct(b, c);
    MergedNode(a, b, key);
    MergedNode(b, c, key);
    MergedNode(MergeEntries(a, b), c, key);
    MergedNode(a, MergeEntries(b, c), key);
  }

  /** The nodes that three maps hold under one key can be merged in either order. */
  predicate NodesAssociate(x: Option<Tree>, y: Tree, z: Option<Tree>) {
    x.Some? && z.Some? ==> Merge(Merge(x.value, y), z.value) == Merge(x.value, Merge(y, z.value))
  }

  predicate EntriesAssociate(a: seq<Entry>, b: seq<Entry>, c: seq<Entry>) {
    forall k :: 0 <= k < |b| ==> NodesAssociate(NodeOf(a, b[k].key), b[k].node, NodeOf(c, b[k].key))
  }

  lemma CombinesIff(x: Option<Tree>, y: Tree, z: Option<Tree>)
    ensures Combine(Combine(x, Some(y)), z) == Combine(x, Combine(Some(y), z)) <==> NodesAssociate(x, y, z)
  {
  }

  lemma SameUnderKey(a: seq<Entry>, b: seq<Entry>, c: seq<Entry>, k: nat)
    requires Distinct(Keys(a)) && Distinct(Keys(b)) && Distinct(Keys(c)) && k < |b|
    ensures NodeOf(MergeEntries(MergeEntries(a, b), c), b[k].key) == NodeOf(MergeEntries(a, MergeEntries(b, c)), b[k].key) <==>
            NodesAssociate(NodeOf(a, b[k].key), b[k].node, NodeOf(c, b[k].key))
  {
    NodeAt(b, k);
    MergedTwice(a, b, c, b[k].key);
    CombinesIff(NodeOf(a, b[k].key), b[k].node, NodeOf(c, b[k].key));
  }

  lemma SameElsewhere(a: seq<Entry>, b: seq<Entry>, c: seq<Entry>, key: string)
    requires Distinct(Keys(a)) && Distinct(Keys(b)) && Distinct(Keys(c)) && NodeOf(b, key).None?
    ensures NodeOf(MergeEntries(MergeEntries(a, b), c), key) == NodeOf(MergeEntries(a, MergeEntries(b, c)), key)
  {
    MergedTwice(a, b, c, key);
  }

  lemma AssociatingMaps(a: seq<Entry>, b: seq<Entry>, c: seq<Entry>)
    requires Distinct(Keys(a)) && Distinct(Keys(b)) && Distinct(Keys(c)) && EntriesAssociate(a, b, c)
    ensures MergeEntries(MergeEntries(a, b), c) == MergeEntries(a, MergeEntries(b, c))
  {
    var l, r := MergeEntries(MergeEntries(a, b), c), MergeEntries(a, MergeEntries(b, c));
    KeyOrderAssociates(a, b, c);
    forall key | key in Keys(l) ensures NodeOf(l, key) == NodeOf(r, key) {
      if NodeOf(b, key).None? { SameElsewhere(a, b, c, key); } else { SameUnderKey(a, b, c, Find(b, key)); }
    }
    SameMaps(l, r);
  }

  lemma MapsAssociateIff(a: seq<Entry>, b: seq<Entry>, c: seq<Entry>)
    requires Distinct(Keys(a)) && Distinct(Keys(b)) && Distinct(Keys(c))
    ensures MergeEntries(MergeEntries(a, b), c) == MergeEntries(a, MergeEntries(b, c)) <==> EntriesAssociate(a, b, c)
  {
    if MergeEntries(MergeEntries(a, b), c) == MergeEntries(a, MergeEntries(b, c)) {
      forall k | 0 <= k < |b| ensures NodesAssociate(NodeOf(a, b[k].key), b[k].node, NodeOf(c, b[k].key)) {
        SameUnderKey(a, b, c, k);
      }
    }
    if EntriesAssociate(a, b, c) { AssociatingMaps(a, b, c); }
  }

  /** The middle tree never holds a scalar or sequence where both others hold maps. */
  predicate NoGap(a: Tree, b: Tree, c: Tree)
    decreases b
  {
    a.Map? && c.Map? ==>
      b.Map? &&
      forall k :: 0 <= k < |b.entries| ==>
        var x, z := NodeOf(a.entries, b.entries[k].key), NodeOf(c.entries, b.entries[k].key);
        x.Some? && z.Some? ==> NoGap(x.value, b.entries[k].node, z.value)
  }

  lemma {:induction false} NoGapAssociates(a: Tree, b: Tree, c: Tree)
    requires NoGap(a, b, c)
    ensures Associates(a, b, c)
    decreases b
  {
    if a.Map? && b.Map? && c.Map? {
      forall k | 0 <= k < |b.entries|
        ensures var x, z := NodeOf(a.entries, b.entries[k].key), NodeOf(c.entries, b.entries[k].key);
                x.Some? && z.Some? ==> Associates(x.value, b.entries[k].node, z.value)
      {
        var x, z := NodeOf(a.entries, b.entries[k].key), NodeOf(c.entries, b.entries[k].key);
        if x.Some? && z.Some? { NoGapAssociates(x.value, b.entries[k].node, z.value); }
      }
    }
  }

  lemma OneEntry(key: string, node: Tree)
    requires node.Leaf?
    ensures WellKeyed(Map([Entry(key, node)])) && Keys([Entry(key, node)]) == [key]
  {
    KeysAt([Entry(key, node)]);
    DistinctAt([key]);
  }

  /** Associativity fails in general: a map that a scalar replaced comes back. */
  lemma NotAssociative(x: string, y: string, first: string, middle: string, last: string)
    requires x != y
    ensures var a, b, c := Map([Entry(x, Leaf(Some(first)))]), Leaf(Some(middle)), Map([Entry(y, Leaf(Some(last)))]);
            WellKeyed(a) && WellKeyed(b) && WellKeyed(c) && Merge(Merge(a, b), c) != Merge(a, Merge(b, c))
  {
    var a, b, c := Map([Entry(x, Leaf(Some(first)))]), Leaf(Some(middle)), Map([Entry(y, Leaf(Some(last)))]);
    OneEntry(x, Leaf(Some(first)));
    OneEntry(y, Leaf(Some(last)));
    assert Keys(a.entries)[0] != Keys(c.entries)[0];
    AssociativityIff(a, b, c);
  }
}
