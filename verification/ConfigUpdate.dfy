/** A configuration updated in place, as `applyConfigOverrideImpl` walks it with a
    node cursor (src/config/ConfigOverride.cpp). */
module ConfigUpdate {
  import opened Wrappers
  import opened PathSyntax
  import opened ConfigTree
  import opened Assignment
  import opened Merging

  /** A node of the tree, or a seed: a child its parent map does not have yet. */
  datatype NodeRef = Node(at: Position) | Seed(parent: Position, key: string)

  datatype OverrideError = BadPath(syntax: PathError) | BadTarget(reason: AssignError)

  predicate RefersInto(ref: NodeRef, root: Tree) {
    match ref
    case Node(p) => In(p, root)
    case Seed(p, _) => In(p, root) && At(root, p).Map?
  }

  function Slot(root: Tree, ref: NodeRef): Option<Tree>
    requires RefersInto(ref, root)
  {
    if ref.Node? then Some(At(root, ref.at)) else None
  }

  /** The whole tree after the node or seed became `o.node`. */
  function Graft(root: Tree, ref: NodeRef, o: Outcome<Option<Tree>>): Outcome<Tree>
    requires RefersInto(ref, root)
  {
    if o.node.None? then Outcome(root, o.error)
    else match ref
      case Node(p) => Outcome(Replace(root, p, o.node.value), o.error)
      case Seed(p, key) => Outcome(Replace(root, p, Map(At(root, p).entries + [Entry(key, o.node.value)])), o.error)
  }

  function Whole(o: Outcome<Tree>): Outcome<Option<Tree>> { Outcome(Some(o.node), o.error) }

  function OnlyItem(items: seq<Tree>): Tree { if items == [] then Map([]) else items[0] }

  function InSequence(o: Outcome<Tree>): Outcome<Option<Tree>> { Outcome(Some(Seq([o.node])), o.error) }

  function Reported(e: Option<AssignError>): Option<OverrideError> { if e.None? then None else Some(BadTarget(e.value)) }

  /** The pending update of a map is the pending update of the child it leads to. */
  lemma IntoChild(root: Tree, p: Position, segments: seq<Segment>, value: string, grow: bool)
    requires In(p, root) && At(root, p).Map? && segments != []
    ensures var entries, key := At(root, p).entries, segments[0].key;
            var k := Find(entries, key);
            var child := if k < |entries| then Node(p + [k]) else Seed(p, key);
            RefersInto(child, root) &&
            Graft(root, Node(p), Whole(Assign(At(root, p), segments, value, grow))) ==
            Graft(root, child, AssignChild(Slot(root, child), segments, value, grow))
  {
    var entries, key := At(root, p).entries, segments[0].key;
    var k := Find(entries, key);
    if k < |entries| {
      var o := AssignChild(Some(entries[k].node), segments, value, grow);
      Descend(root, p, k, o.node.value);
    } else {
      ReplaceSame(root, p);
    }
  }

  /** An outcome that leaves the node as it is leaves the whole tree as it is. */
  lemma GraftSame(root: Tree, ref: NodeRef, e: Option<AssignError>)
    requires RefersInto(ref, root)
    ensures Graft(root, ref, Outcome(Slot(root, ref), e)) == Outcome(root, e)
  {
    if ref.Node? { ReplaceSame(root, ref.at); }
  }

  class Config {
    var root: Tree

    constructor (root: Tree)
      ensures this.root == root
    {
      this.root := root;
    }

    /** Writes a node; a seed is appended to its parent map. */
    method Write(ref: NodeRef, t: Tree) returns (at: Position)
      requires RefersInto(ref, root)
      modifies this
      ensures root == Graft(old(root), ref, Outcome(Some(t), None)).node
      ensures In(at, root) && At(root, at) == t
      ensures forall o: Outcome<Option<Tree>> :: o.node.Some? ==> Graft(root, Node(at), o) == Graft(old(root), ref, o)
    {
      ghost var before := root;
      match ref
      case Node(p) =>
        root := Replace(root, p, t);
        at := p;
        AtReplaced(before, p, t);
        forall c: Tree ensures Replace(root, at, c) == Replace(before, p, c) { ReplaceTwice(before, p, t, c); }
      case Seed(p, key) =>
        var entries := At(root, p).entries;
        root := Replace(root, p, Map(entries + [Entry(key, t)]));
        at := p + [|entries|];
        AtReplaced(before, p, Map(entries + [Entry(key, t)]));
        forall c: Tree ensures In(at, root) && At(root, at) == t
          && Replace(root, at, c) == Replace(before, p, Map(entries + [Entry(key, c)]))
        {
          Descend(root, p, |entries|, c);
          assert (entries + [Entry(key, t)])[|entries| := Entry(key, c)] == entries + [Entry(key, c)];
          ReplaceTwice(before, p, Map(entries + [Entry(key, t)]), Map(entries + [Entry(key, c)]));
        }
    }

    /** Selects or creates the item an index names. */
    method EnsureSequenceEntry(ref: NodeRef, segments: seq<Segment>, value: string, grow: bool) returns (error: Option<AssignError>, at: Position)
      requires RefersInto(ref, root) && segments != [] && segments[0].index.Some?
      modifies this
      ensures error.Some? ==> Outcome(root, error) == Graft(old(root), ref, AssignChild(Slot(old(root), ref), segments, value, grow))
      ensures error.None? ==> In(at, root)
      ensures error.None? ==> Graft(root, Node(at), AssignNode(Some(At(root, at)), segments, value, grow))
                              == Graft(old(root), ref, AssignChild(Slot(old(root), ref), segments, value, grow))
    {
      ghost var before, slot := root, Slot(root, ref);
      var index := segments[0].index.value;
      GraftSame(root, ref, Some(Mismatch));
      GraftSame(root, ref, Some(OutOfRange));
      var items: seq<Tree> := [];
      if ref.Seed? {
        if !grow { return Some(Mismatch), []; }
      } else {
        if !At(root, ref.at).Seq? { return Some(Mismatch), []; }
        items := At(root, ref.at).items;
      }
      if !grow && index >= |items| { return Some(OutOfRange), []; }
      ghost var given := items;
      while |items| <= index
        invariant |given| <= |items| && |items| <= if |given| <= index then index + 1 else |given|
        invariant forall j :: 0 <= j < |items| ==> items[j] == if j < |given| then given[j] else if |segments| == 1 then Leaf(None) else Map([])
      {
        items := items + [if |segments| == 1 then Leaf(None) else Map([])];
      }
      assert items == Extend(given, index, if |segments| == 1 then Leaf(None) else Map([]));
      var sequence := Write(ref, Seq(items));
      ghost var o := AssignNode(Some(items[index]), segments, value, grow);
      Descend(root, sequence, index, o.node.value);
      return None, sequence + [index];
    }

    /** Steps into the only item of a sequence, creating it in an empty one. */
    method DescendThroughSequence(at: Position, rest: seq<Segment>, value: string, grow: bool) returns (error: Option<AssignError>, item: Position)
      requires In(at, root) && At(root, at).Seq? && rest != []
      modifies this
      ensures error.Some? ==> error == Some(Ambiguous) && root == old(root) && |At(root, at).items| > 1
      ensures error.None? ==> In(item, root) && |At(old(root), at).items| <= 1
      ensures error.None? ==> Graft(root, Node(item), Whole(Assign(At(root, item), rest, value, grow)))
                              == Graft(old(root), Node(at), InSequence(Assign(OnlyItem(At(old(root), at).items), rest, value, grow)))
    {
      var items := At(root, at).items;
      if |items| > 1 { return Some(Ambiguous), []; }
      var position := at;
      if |items| == 0 { position := Write(Node(at), Seq([Map([])])); }
      ghost var o := Assign(Child(At(root, position), 0), rest, value, grow);
      Descend(root, position, 0, o.node);
      assert At(root, position).items[0 := o.node] == [o.node];
      return None, position + [0];
    }

    /** The loop over the path segments. */
    method Apply(segments: seq<Segment>, value: string, grow: bool) returns (error: Option<AssignError>)
      requires segments != []
      modifies this
      ensures Outcome(root, error) == Assign(old(root), segments, value, grow)
    {
      ghost var goal := Assign(root, segments, value, grow);
      var current: Position := [];
      var i := 0;
      while true
        invariant 0 <= i < |segments| && In(current, root)
        invariant goal == Graft(root, Node(current), Whole(Assign(At(root, current), segments[i..], value, grow)))
        decreases |segments| - i
      {
        var rest := segments[i..];
        var isLast := i + 1 == |segments|;
        if !At(root, current).Map? {
          GraftSame(root, Node(current), Some(Mismatch));
          return Some(Mismatch);
        }
        IntoChild(root, current, rest, value, grow);
        var entries := At(root, current).entries;
        var k := Find(entries, rest[0].key);
        var child := if k < |entries| then Node(current + [k]) else Seed(current, rest[0].key);
        if rest[0].index.Some? {
          var failed, item := EnsureSequenceEntry(child, rest, value, grow);
          if failed.Some? { return failed; }
          child := Node(item);
        }
        assert goal == Graft(root, child, AssignNode(Slot(root, child), rest, value, grow));
        if isLast {
          if child.Node? && !At(root, child.at).Leaf? {
            GraftSame(root, child, Some(NotScalar));
            return Some(NotScalar);
          }
          var _ := Write(child, Leaf(Some(value)));
          return None;
        }
        var failed;
        failed, current := Enter(child, rest, value, grow);
        if failed.Some? { return failed; }
        i := i + 1;
        assert segments[i..] == rest[1..];
      }
    }

    /** Moves the cursor into a child that is not the last segment. */
    method Enter(child: NodeRef, segments: seq<Segment>, value: string, grow: bool) returns (error: Option<AssignError>, at: Position)
      requires RefersInto(child, root) && |segments| > 1
      modifies this
      ensures error.Some? ==> Outcome(root, error) == Graft(old(root), child, AssignNode(Slot(old(root), child), segments, value, grow))
      ensures error.None? ==> In(at, root)
      ensures error.None? ==> Graft(root, Node(at), Whole(Assign(At(root, at), segments[1..], value, grow)))
                              == Graft(old(root), child, AssignNode(Slot(old(root), child), segments, value, grow))
    {
      if child.Seed? {
        at := Write(child, Map([]));
        return None, at;
      }
      at := child.at;
      if At(root, at).Seq? {
        GraftSame(root, child, Some(Ambiguous));
        error, at := DescendThroughSequence(at, segments[1..], value, grow);
        return error, at;
      }
      if !At(root, at).Map? {
        GraftSame(root, child, Some(Mismatch));
        return Some(Mismatch), at;
      }
      return None, at;
    }

    /** Parses the path, then assigns; an unparsable path changes nothing. */
    method ApplyOverride(path: string, value: string, grow: bool) returns (error: Option<OverrideError>)
      modifies this
      ensures Parse(path).Err? ==> error == Some(BadPath(Parse(path).error)) && root == old(root)
      ensures Parse(path).Ok? ==> Parse(path).value != []
      ensures Parse(path).Ok? ==> root == Assign(old(root), Parse(path).value, value, grow).node
      ensures Parse(path).Ok? ==> error == Reported(Assign(old(root), Parse(path).value, value, grow).error)
    {
      var segments := ParsePath(path);
      if segments.Err? { return Some(BadPath(segments.error)); }
      ghost var ws := ParseSpelled(path);
      assert segments.value != [];
      var failed := Apply(segments.value, value, grow);
      return Reported(failed);
    }

    /** Copies a tree over a node, child by child. */
    method ReplaceNode(at: Position, src: Tree)
      requires In(at, root)
      modifies this
      ensures root == Replace(old(root), at, src)
      decreases src, 0
    {
      ghost var before := root;
      match src
      case Map(entries) =>
        root := Replace(root, at, Map([]));
        for k := 0 to |entries|
          invariant root == Replace(before, at, Map(entries[..k]))
        {
          AtReplaced(before, at, Map(entries[..k]));
          CopyEntry(at, entries[k]);
          assert entries[..k] + [entries[k]] == entries[..k + 1];
          ReplaceTwice(before, at, Map(entries[..k]), Map(entries[..k + 1]));
        }
        assert entries[..|entries|] == entries;
      case Seq(items) =>
        root := Replace(root, at, Seq([]));
        for k := 0 to |items|
          invariant root == Replace(before, at, Seq(items[..k]))
        {
          AtReplaced(before, at, Seq(items[..k]));
          CopyItem(at, items[k]);
          assert items[..k] + [items[k]] == items[..k + 1];
          ReplaceTwice(before, at, Seq(items[..k]), Seq(items[..k + 1]));
        }
        assert items[..|items|] == items;
      case Leaf(_) =>
        root := Replace(root, at, src);
    }

    /** Appends a child with a key to a map and copies a tree over it. */
    method CopyEntry(at: Position, entry: Entry)
      requires In(at, root) && At(root, at).Map?
      modifies this
      ensures root == Replace(old(root), at, Map(At(old(root), at).entries + [entry]))
      decreases entry
    {
      ghost var before := root;
      var entries := At(root, at).entries;
      var seeded := entries + [Entry(entry.key, Leaf(None))];
      root := Replace(root, at, Map(seeded));
      AtReplaced(before, at, Map(seeded));
      Descend(root, at, |entries|, entry.node);
      ReplaceNode(at + [|entries|], entry.node);
      assert seeded[|entries| := entry] == entries + [entry];
      ReplaceTwice(before, at, Map(seeded), Map(entries + [entry]));
    }

    /** Appends an item to a sequence and copies a tree over it. */
    method CopyItem(at: Position, item: Tree)
      requires In(at, root) && At(root, at).Seq?
      modifies this
      ensures root == Replace(old(root), at, Seq(At(old(root), at).items + [item]))
      decreases item, 1
    {
      ghost var before := root;
      var items := At(root, at).items;
      var seeded := items + [Leaf(None)];
      root := Replace(root, at, Seq(seeded));
      AtReplaced(before, at, Seq(seeded));
      Descend(root, at, |items|, item);
      ReplaceNode(at + [|items|], item);
      assert seeded[|items| := item] == items + [item];
      ReplaceTwice(before, at, Seq(seeded), Seq(items + [item]));
    }

    /** Merges a source tree into a node, in place. */
    method MergeNode(at: Position, src: Tree)
      requires In(at, root)
      modifies this
      ensures root == Replace(old(root), at, Merge(At(old(root), at), src))
      decreases src
    {
      ghost var before := root;
      var dst := At(root, at);
      if src.Map? && dst.Map? {
        ReplaceSame(root, at);
        for k := 0 to |src.entries|
          invariant root == Replace(before, at, Map(MergeEntries(dst.entries, src.entries[..k])))
        {
          assert src.entries[..k + 1][..k] == src.entries[..k];
          ghost var merged := MergeEntries(dst.entries, src.entries[..k]);
          AtReplaced(before, at, Map(merged));
          MergeChild(at, src.entries[k]);
          ReplaceTwice(before, at, Map(merged), Map(MergeEntries(dst.entries, src.entries[..k + 1])));
        }
        assert src.entries[..|src.entries|] == src.entries;
      } else {
        ReplaceNode(at, src);
      }
    }

    /** One source child: copied when its key is new, merged otherwise. */
    method MergeChild(at: Position, entry: Entry)
      requires In(at, root) && At(root, at).Map?
      modifies this
      ensures var entries := At(old(root), at).entries;
              var k := Find(entries, entry.key);
              root == Replace(old(root), at, Map(if k < |entries| then entries[k := entries[k].(node := Merge(entries[k].node, entry.node))]
                                                 else entries + [entry]))
      decreases entry
    {
      var entries := At(root, at).entries;
      var k := Find(entries, entry.key);
      if k < |entries| {
        Descend(root, at, k, Merge(entries[k].node, entry.node));
        MergeNode(at + [k], entry.node);
      } else {
        CopyEntry(at, entry);
      }
    }
  }
}
