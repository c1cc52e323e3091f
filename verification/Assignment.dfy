/** Setting one scalar of a configuration by its path (src/config/ConfigOverride.cpp). */
module Assignment {
  import opened Wrappers
  import opened PathSyntax
  import opened ConfigTree

  datatype AssignError = Mismatch | OutOfRange | Ambiguous | NotScalar

  /** The node afterwards and the error, if any: a failed assignment may leave new
      empty nodes behind. */
  datatype Outcome<T> = Outcome(node: T, error: Option<AssignError>)

  /** What a path assignment does to a node. */
  function Assign(t: Tree, segments: seq<Segment>, value: string, grow: bool): Outcome<Tree>
    requires segments != []
    decreases |segments|, 2
  {
    if !t.Map? then Outcome(t, Some(Mismatch))
    else
      var k := Find(t.entries, segments[0].key);
      var o := AssignChild(if k < |t.entries| then Some(t.entries[k].node) else None, segments, value, grow);
      Outcome(Put(t.entries, k, segments[0].key, o.node), o.error)
  }

  /** Writes a child back; None leaves a missing child missing. */
  function Put(entries: seq<Entry>, k: nat, key: string, node: Option<Tree>): Tree
    requires k <= |entries|
  {
    if node.None? then Map(entries)
    else if k < |entries| then Map(entries[k := entries[k].(node := node.value)])
    else Map(entries + [Entry(key, node.value)])
  }

  /** The child a key leads to; None stands for a child that does not exist yet. */
  function AssignChild(slot: Option<Tree>, segments: seq<Segment>, value: string, grow: bool): (o: Outcome<Option<Tree>>)
    requires segments != []
    ensures slot.Some? || o.error.None? ==> o.node.Some?
    decreases |segments|, 1
  {
    if segments[0].index.None? then AssignNode(slot, segments, value, grow)
    else if slot.None? && !grow then Outcome(slot, Some(Mismatch))
    else if slot.Some? && !slot.value.Seq? then Outcome(slot, Some(Mismatch))
    else
      var items := if slot.None? then [] else slot.value.items;
      var index := segments[0].index.value;
      if !grow && index >= |items| then Outcome(slot, Some(OutOfRange))
      else
        var extended := Extend(items, index, if |segments| == 1 then Leaf(None) else Map([]));
        var o := AssignNode(Some(extended[index]), segments, value, grow);
        Outcome(Some(Seq(extended[index := o.node.value])), o.error)
  }

  /** The node a segment leads to. */
  function AssignNode(slot: Option<Tree>, segments: seq<Segment>, value: string, grow: bool): (o: Outcome<Option<Tree>>)
    requires segments != []
    ensures slot.Some? || o.error.None? ==> o.node.Some?
    decreases |segments|, 0
  {
    var rest := segments[1..];
    if rest == [] then
      if slot.Some? && !slot.value.Leaf? then Outcome(slot, Some(NotScalar)) else Outcome(Some(Leaf(Some(value))), None)
    else
      match (if slot.None? then Map([]) else slot.value)
      case Leaf(_) => Outcome(slot, Some(Mismatch))
      case Map(entries) =>
        var o := Assign(Map(entries), rest, value, grow);
        Outcome(Some(o.node), o.error)
      case Seq(items) =>
        if |items| > 1 then Outcome(slot, Some(Ambiguous))
        else
          var o := Assign(if items == [] then Map([]) else items[0], rest, value, grow);
          Outcome(Some(Seq([o.node])), o.error)
  }

  /** The items with enough padding for an index. */
  function Extend(items: seq<Tree>, index: nat, padding: Tree): (r: seq<Tree>)
    ensures |r| == (if |items| <= index then index + 1 else |items|)
    ensures forall j :: 0 <= j < |r| ==> r[j] == if j < |items| then items[j] else padding
  {
    if |items| <= index then items + seq(index + 1 - |items|, _ => padding) else items
  }

  // ----- reading by path -------------------------------------------------------------

  /** The position a path names in a tree: an index selects an item, and a sequence
      with exactly one item is passed through. */
  function Resolve(t: Tree, segments: seq<Segment>): Option<Position>
    requires segments != []
    decreases |segments|, 2
  {
    if !t.Map? then None
    else
      var k := Find(t.entries, segments[0].key);
      if k == |t.entries| then None
      else Prefixed([k], ResolveChild(t.entries[k].node, segments))
  }

  function ResolveChild(node: Tree, segments: seq<Segment>): Option<Position>
    requires segments != []
    decreases |segments|, 1
  {
    var index := segments[0].index;
    if index.None? then ResolveNode(node, segments)
    else if !node.Seq? || index.value >= |node.items| then None
    else Prefixed([index.value], ResolveNode(node.items[index.value], segments))
  }

  function ResolveNode(node: Tree, segments: seq<Segment>): Option<Position>
    requires segments != []
    decreases |segments|, 0
  {
    var rest := segments[1..];
    if rest == [] then Some([])
    else if node.Seq? && |node.items| == 1 then Prefixed([0], Resolve(node.items[0], rest))
    else Resolve(node, rest)
  }

  function Prefixed(p: Position, q: Option<Position>): Option<Position> { if q.None? then None else Some(p + q.value) }

  // ----- get after set, and the frame ------------------------------------------------

  /** The valued scalar at a position. */
  function Scalar(t: Tree, p: Position): Option<string> { if In(p, t) && At(t, p).Leaf? then At(t, p).text else None }

  function ScalarIn(slot: Option<Tree>, p: Position): Option<string> { if slot.None? then None else Scalar(slot.value, p) }

  lemma FindPut(entries: seq<Entry>, k: nat, key: string, node: Tree)
    requires k == Find(entries, key)
    ensures Find(Put(entries, k, key, Some(node)).entries, key) == k
  {
    var after := Put(entries, k, key, Some(node)).entries;
    assert forall j :: 0 <= j < k ==> after[j].key == entries[j].key;
    assert after[k].key == key;
  }

  /** Get after set: a successful assignment is read back through the same path. */
  lemma {:induction false} GetAfterSet(t: Tree, segments: seq<Segment>, value: string, grow: bool)
    requires segments != [] && Assign(t, segments, value, grow).error.None?
    ensures var after := Assign(t, segments, value, grow).node;
            Resolve(after, segments).Some? && In(Resolve(after, segments).value, after)
            && At(after, Resolve(after, segments).value) == Leaf(Some(value))
    decreases |segments|, 2
  {
    var k := Find(t.entries, segments[0].key);
    var slot := if k < |t.entries| then Some(t.entries[k].node) else None;
    var o := AssignChild(slot, segments, value, grow);
    FindPut(t.entries, k, segments[0].key, o.node.value);
    GetAfterSetChild(slot, segments, value, grow);
  }

  lemma {:induction false} GetAfterSetChild(slot: Option<Tree>, segments: seq<Segment>, value: string, grow: bool)
    requires segments != [] && AssignChild(slot, segments, value, grow).error.None?
    ensures var after := AssignChild(slot, segments, value, grow).node.value;
            ResolveChild(after, segments).Some? && In(ResolveChild(after, segments).value, after)
            && At(after, ResolveChild(after, segments).value) == Leaf(Some(value))
    decreases |segments|, 1
  {
    if segments[0].index.None? {
      GetAfterSetNode(slot, segments, value, grow);
    } else {
      var items := if slot.None? then [] else slot.value.items;
      var index := segments[0].index.value;
      var extended := Extend(items, index, if |segments| == 1 then Leaf(None) else Map([]));
      GetAfterSetNode(Some(extended[index]), segments, value, grow);
    }
  }

  lemma {:induction false} GetAfterSetNode(slot: Option<Tree>, segments: seq<Segment>, value: string, grow: bool)
    requires segments != [] && AssignNode(slot, segments, value, grow).error.None?
    ensures var after := AssignNode(slot, segments, value, grow).node.value;
            ResolveNode(after, segments).Some? && In(ResolveNode(after, segments).value, after)
            && At(after, ResolveNode(after, segments).value) == Leaf(Some(value))
    decreases |segments|, 0
  {
    var rest := segments[1..];
    if rest != [] {
      var node := if slot.None? then Map([]) else slot.value;
      if node.Map? {
        GetAfterSet(node, rest, value, grow);
      } else {
        GetAfterSet(if node.items == [] then Map([]) else node.items[0], rest, value, grow);
      }
    }
  }

  /** The valued scalars afterwards: the assigned one if the assignment succeeded,
      and otherwise, position by position, exactly those that were there before. */
  lemma {:induction false} OnlyTheTargetChanges(t: Tree, segments: seq<Segment>, value: string, grow: bool, p: Position)
    requires segments != []
    ensures var o := Assign(t, segments, value, grow);
            Scalar(o.node, p) == if o.error.None? && Resolve(o.node, segments) == Some(p) then Some(value) else Scalar(t, p)
    decreases |segments|, 2
  {
    if t.Map? {
      var k := Find(t.entries, segments[0].key);
      var slot := if k < |t.entries| then Some(t.entries[k].node) else None;
      var o := AssignChild(slot, segments, value, grow);
      if o.node.Some? { FindPut(t.entries, k, segments[0].key, o.node.value); }
      if p != [] { ChildTargetChanges(slot, segments, value, grow, p[1..]); }
      UnderPrefix(p, k, if o.error.None? then ResolveChild(o.node.value, segments) else None);
      ScalarOfPut(t.entries, k, segments[0].key, o.node, p);
    }
  }

  /** A scalar below a map after one child was written back. */
  lemma ScalarOfPut(entries: seq<Entry>, k: nat, key: string, node: Option<Tree>, p: Position)
    requires k <= |entries| && (k < |entries| ==> node.Some?)
    ensures Scalar(Put(entries, k, key, node), p) ==
            if p != [] && p[0] == k then ScalarIn(node, p[1..]) else Scalar(Map(entries), p)
  {
  }

  /** A position under child k, against a resolved one. */
  lemma UnderPrefix(p: Position, k: nat, q: Option<Position>)
    ensures Prefixed([k], q) == Some(p) <==> p != [] && p[0] == k && q == Some(p[1..])
  {
    if p != [] && p[0] == k { assert p == [k] + p[1..]; }
    if q.Some? { assert ([k] + q.value)[1..] == q.value; }
  }

  lemma ScalarOfItem(items: seq<Tree>, p: Position)
    ensures Scalar(Seq(items), p) == if p == [] || p[0] >= |items| then None else Scalar(items[p[0]], p[1..])
  {
  }

  lemma PaddingHasNoScalar(items: seq<Tree>, index: nat, padding: Tree, p: Position)
    requires padding == Leaf(None) || padding == Map([])
    ensures Scalar(Seq(Extend(items, index, padding)), p) == Scalar(Seq(items), p)
  {
    if p != [] && |items| <= p[0] < |Extend(items, index, padding)| { assert Scalar(padding, p[1..]) == None; }
  }

  lemma {:induction false} ChildTargetChanges(slot: Option<Tree>, segments: seq<Segment>, value: string, grow: bool, p: Position)
    requires segments != []
    ensures var o := AssignChild(slot, segments, value, grow);
            ScalarIn(o.node, p) == if o.error.None? && ResolveChild(o.node.value, segments) == Some(p) then Some(value) else ScalarIn(slot, p)
    decreases |segments|, 1
  {
    var index := segments[0].index;
    if index.None? {
      NodeTargetChanges(slot, segments, value, grow, p);
    } else if (slot.None? && grow) || (slot.Some? && slot.value.Seq?) {
      ItemTargetChanges(if slot.None? then [] else slot.value.items, slot, segments, value, grow, p);
    }
  }

  lemma {:induction false} ItemTargetChanges(items: seq<Tree>, slot: Option<Tree>, segments: seq<Segment>, value: string, grow: bool, p: Position)
    requires segments != [] && segments[0].index.Some?
    requires if slot.None? then items == [] && grow else slot.value == Seq(items)
    ensures var o := AssignChild(slot, segments, value, grow);
            ScalarIn(o.node, p) == if o.error.None? && ResolveChild(o.node.value, segments) == Some(p) then Some(value) else ScalarIn(slot, p)
    decreases |segments|, 0, 1
  {
    var index := segments[0].index.value;
    if grow || index < |items| {
      var extended := Extend(items, index, if |segments| == 1 then Leaf(None) else Map([]));
      var o := AssignNode(Some(extended[index]), segments, value, grow);
      if p != [] { NodeTargetChanges(Some(extended[index]), segments, value, grow, p[1..]); }
      UnderPrefix(p, index, if o.error.None? then ResolveNode(o.node.value, segments) else None);
      ScalarOfItem(extended[index := o.node.value], p);
      ScalarOfItem(extended, p);
      ScalarOfItem(items, p);
      PaddingHasNoScalar(items, index, if |segments| == 1 then Leaf(None) else Map([]), p);
    }
  }

  lemma {:induction false} NodeTargetChanges(slot: Option<Tree>, segments: seq<Segment>, value: string, grow: bool, p: Position)
    requires segments != []
    ensures var o := AssignNode(slot, segments, value, grow);
            ScalarIn(o.node, p) == if o.error.None? && ResolveNode(o.node.value, segments) == Some(p) then Some(value) else ScalarIn(slot, p)
    decreases |segments|, 0, 0
  {
    var rest := segments[1..];
    if rest != [] {
      var node := if slot.None? then Map([]) else slot.value;
      if node.Map? {
        OnlyTheTargetChanges(node, rest, value, grow, p);
      } else if node.Seq? && |node.items| <= 1 {
        var item := if node.items == [] then Map([]) else node.items[0];
        var o := Assign(item, rest, value, grow);
        if p != [] { OnlyTheTargetChanges(item, rest, value, grow, p[1..]); }
        UnderPrefix(p, 0, if o.error.None? then Resolve(o.node, rest) else None);
        ScalarOfItem([o.node], p);
        ScalarOfItem(node.items, p);
      }
    }
  }

  /** What an assignment leaves of the node at a position: a scalar other than the
      target is untouched, a map keeps its keys in front, and without `grow` a
      sequence that has items keeps its length. */
  ghost predicate Kept(t: Tree, after: Tree, grow: bool, target: Option<Position>, p: Position)
    requires In(p, t)
  {
    In(p, after) &&
    match At(t, p)
    case Leaf(_) => if target == Some(p) then At(after, p).Leaf? else At(after, p) == At(t, p)
    case Map(entries) => At(after, p).Map? && Keys(entries) <= Keys(At(after, p).entries)
    case Seq(items) => At(after, p).Seq? && (if grow || items == [] then |At(after, p).items| >= |items| else |At(after, p).items| == |items|)
  }

  lemma {:induction false} KeysAfterPut(entries: seq<Entry>, k: nat, key: string, node: Option<Tree>)
    requires k <= |entries|
    ensures Keys(entries) <= Keys(Put(entries, k, key, node).entries)
  {
    if node.Some? && k < |entries| {
      KeysKeepNodes(entries, entries[k := entries[k].(node := node.value)]);
    } else if node.Some? {
      assert (entries + [Entry(key, node.value)])[..|entries|] == entries;
    }
  }

  lemma {:induction false} KeysKeepNodes(a: seq<Entry>, b: seq<Entry>)
    requires |a| == |b| && forall j :: 0 <= j < |a| ==> a[j].key == b[j].key
    ensures Keys(a) == Keys(b)
  {
    if a != [] { KeysKeepNodes(a[..|a|-1], b[..|b|-1]); }
  }

  lemma KeptUnder(t: Tree, after: Tree, grow: bool, target: Option<Position>, target': Option<Position>, p: Position)
    requires p != [] && In(p, t) && p[0] < Arity(after)
    requires Kept(Child(t, p[0]), Child(after, p[0]), grow, target', p[1..])
    requires target == Some(p) <==> target' == Some(p[1..])
    ensures Kept(t, after, grow, target, p)
  {
  }

  lemma Untouched(t: Tree, grow: bool, target: Option<Position>, p: Position)
    requires In(p, t) && target != Some(p)
    ensures Kept(t, t, grow, target, p)
  {
  }

  /** Every node that was there keeps its place and kind, on success and on
      failure: scalars other than the target are untouched, null ones included. */
  lemma {:induction false} AssignKeeps(t: Tree, segments: seq<Segment>, value: string, grow: bool, p: Position)
    requires segments != [] && In(p, t)
    ensures var o := Assign(t, segments, value, grow);
            Kept(t, o.node, grow, if o.error.None? then Resolve(o.node, segments) else None, p)
    decreases |segments|, 2
  {
    var o := Assign(t, segments, value, grow);
    if t.Map? {
      var k := Find(t.entries, segments[0].key);
      var slot := if k < |t.entries| then Some(t.entries[k].node) else None;
      var c := AssignChild(slot, segments, value, grow);
      var target' := if c.error.None? then ResolveChild(c.node.value, segments) else None;
      KeysAfterPut(t.entries, k, segments[0].key, c.node);
      if c.node.Some? { FindPut(t.entries, k, segments[0].key, c.node.value); }
      UnderPrefix(p, k, target');
      if p != [] {
        if p[0] == k {
          ChildKeeps(slot.value, segments, value, grow, p[1..]);
          KeptUnder(t, o.node, grow, Prefixed([k], target'), target', p);
        } else {
          Untouched(Child(t, p[0]), grow, None, p[1..]);
          KeptUnder(t, o.node, grow, if o.error.None? then Resolve(o.node, segments) else None, None, p);
        }
      }
    } else {
      Untouched(t, grow, None, p);
    }
  }

  lemma {:induction false} ChildKeeps(node: Tree, segments: seq<Segment>, value: string, grow: bool, p: Position)
    requires segments != [] && In(p, node)
    ensures var o := AssignChild(Some(node), segments, value, grow);
            Kept(node, o.node.value, grow, if o.error.None? then ResolveChild(o.node.value, segments) else None, p)
    decreases |segments|, 1
  {
    var index := segments[0].index;
    if index.None? {
      NodeKeeps(node, segments, value, grow, p);
    } else if node.Seq? && (grow || index.value < |node.items|) {
      var extended := Extend(node.items, index.value, if |segments| == 1 then Leaf(None) else Map([]));
      var o := AssignNode(Some(extended[index.value]), segments, value, grow);
      var after := Seq(extended[index.value := o.node.value]);
      var target' := if o.error.None? then ResolveNode(o.node.value, segments) else None;
      UnderPrefix(p, index.value, target');
      if p != [] {
        if p[0] == index.value {
          NodeKeeps(extended[index.value], segments, value, grow, p[1..]);
          KeptUnder(node, after, grow, Prefixed([index.value], target'), target', p);
        } else {
          Untouched(node.items[p[0]], grow, None, p[1..]);
          KeptUnder(node, after, grow, if o.error.None? then ResolveChild(after, segments) else None, None, p);
        }
      }
    } else {
      Untouched(node, grow, None, p);
    }
  }

  lemma {:induction false} NodeKeeps(node: Tree, segments: seq<Segment>, value: string, grow: bool, p: Position)
    requires segments != [] && In(p, node)
    ensures var o := AssignNode(Some(node), segments, value, grow);
            Kept(node, o.node.value, grow, if o.error.None? then ResolveNode(o.node.value, segments) else None, p)
    decreases |segments|, 0
  {
    var rest := segments[1..];
    if rest != [] && node.Map? {
      AssignKeeps(node, rest, value, grow, p);
    } else if rest != [] && node.Seq? && |node.items| <= 1 {
      var item := if node.items == [] then Map([]) else node.items[0];
      var o := Assign(item, rest, value, grow);
      var target' := if o.error.None? then Resolve(o.node, rest) else None;
      UnderPrefix(p, 0, target');
      if p != [] {
        AssignKeeps(item, rest, value, grow, p[1..]);
        KeptUnder(node, Seq([o.node]), grow, Prefixed([0], target'), target', p);
      }
    } else if rest != [] || !node.Leaf? {
      Untouched(node, grow, None, p);
    }
  }

  /** An existing scalar is replaced where it stands, whether or not sequences may
      grow, and nothing else changes. */
  lemma {:induction false} AssignExisting(t: Tree, segments: seq<Segment>, value: string, grow: bool)
    requires segments != [] && Resolve(t, segments).Some?
    requires In(Resolve(t, segments).value, t) && At(t, Resolve(t, segments).value).Leaf?
    ensures Assign(t, segments, value, grow) == Outcome(Replace(t, Resolve(t, segments).value, Leaf(Some(value))), None)
    decreases |segments|, 2
  {
    var k := Find(t.entries, segments[0].key);
    AssignExistingChild(t.entries[k].node, segments, value, grow);
  }

  lemma {:induction false} AssignExistingChild(node: Tree, segments: seq<Segment>, value: string, grow: bool)
    requires segments != [] && ResolveChild(node, segments).Some?
    requires In(ResolveChild(node, segments).value, node) && At(node, ResolveChild(node, segments).value).Leaf?
    ensures AssignChild(Some(node), segments, value, grow) ==
            Outcome(Some(Replace(node, ResolveChild(node, segments).value, Leaf(Some(value)))), None)
    decreases |segments|, 1
  {
    if segments[0].index.None? {
      AssignExistingNode(node, segments, value, grow);
    } else {
      var index := segments[0].index.value;
      AssignExistingNode(node.items[index], segments, value, grow);
      assert Extend(node.items, index, if |segments| == 1 then Leaf(None) else Map([])) == node.items;
    }
  }

  lemma {:induction false} AssignExistingNode(node: Tree, segments: seq<Segment>, value: string, grow: bool)
    requires segments != [] && ResolveNode(node, segments).Some?
    requires In(ResolveNode(node, segments).value, node) && At(node, ResolveNode(node, segments).value).Leaf?
    ensures AssignNode(Some(node), segments, value, grow) ==
            Outcome(Some(Replace(node, ResolveNode(node, segments).value, Leaf(Some(value)))), None)
    decreases |segments|, 0
  {
    var rest := segments[1..];
    if rest != [] && node.Seq? && |node.items| == 1 {
      AssignExisting(node.items[0], rest, value, grow);
      var q := Resolve(node.items[0], rest).value;
      assert ([0] + q)[1..] == q;
      assert Seq([Replace(node.items[0], q, Leaf(Some(value)))]) == Replace(node, [0] + q, Leaf(Some(value)));
    } else if rest != [] {
      AssignExisting(node, rest, value, grow);
    }
  }

  /** Setting the same path again only changes the value. */
  lemma AssignAgain(t: Tree, segments: seq<Segment>, first: string, second: string, grow: bool)
    requires segments != [] && Assign(t, segments, first, grow).error.None?
    ensures var after := Assign(t, segments, first, grow).node;
            var again := Assign(after, segments, second, grow);
            again.error.None? && Resolve(after, segments).Some? && In(Resolve(after, segments).value, after)
            && again.node == Replace(after, Resolve(after, segments).value, Leaf(Some(second)))
  {
    GetAfterSet(t, segments, first, grow);
    AssignExisting(Assign(t, segments, first, grow).node, segments, second, grow);
  }

  // ----- when an assignment succeeds ------------------------------------------------------

  /** An assignment below a key that is not there yet succeeds exactly when it may
      create sequences or needs none. */
  lemma {:induction false} FreshKeyIff(t: Tree, segments: seq<Segment>, value: string, grow: bool)
    requires segments != [] && t.Map? && Find(t.entries, segments[0].key) == |t.entries|
    ensures Assign(t, segments, value, grow).error.None? <==> grow || forall s :: s in segments ==> s.index.None?
    decreases |segments|, 2
  {
    FreshChildIff(segments, value, grow);
  }

  lemma {:induction false} FreshChildIff(segments: seq<Segment>, value: string, grow: bool)
    requires segments != []
    ensures AssignChild(None, segments, value, grow).error.None? <==> grow || forall s :: s in segments ==> s.index.None?
    decreases |segments|, 1
  {
    var rest := segments[1..];
    assert segments == [segments[0]] + rest;
    if rest != [] { FreshKeyIff(Map([]), rest, value, grow); }
  }

  /** A path that resolves to a map or a sequence, and no other path, is refused for
      not naming a scalar. */
  lemma {:induction false} NotScalarIff(t: Tree, segments: seq<Segment>, value: string, grow: bool)
    requires segments != []
    ensures Assign(t, segments, value, grow).error == Some(NotScalar) <==>
            var p := Resolve(t, segments); p.Some? && In(p.value, t) && !At(t, p.value).Leaf?
    decreases |segments|, 2
  {
    if t.Map? {
      var k := Find(t.entries, segments[0].key);
      if k < |t.entries| {
        NotScalarChild(t.entries[k].node, segments, value, grow);
        PrefixedAt(t, k, ResolveChild(t.entries[k].node, segments));
      } else {
        FreshIsNotNotScalar(segments, value, grow);
      }
    }
  }

  lemma PrefixedAt(t: Tree, k: nat, q: Option<Position>)
    requires k < Arity(t)
    ensures q.Some? ==> var p := [k] + q.value;
                        (In(p, t) <==> In(q.value, Child(t, k))) && (In(p, t) ==> At(t, p) == At(Child(t, k), q.value))
  {
    if q.Some? { assert ([k] + q.value)[1..] == q.value; }
  }

  lemma {:induction false} FreshIsNotNotScalar(segments: seq<Segment>, value: string, grow: bool)
    requires segments != []
    ensures AssignChild(None, segments, value, grow).error != Some(NotScalar)
    decreases |segments|
  {
    var rest := segments[1..];
    if rest != [] {
      FreshIsNotNotScalar(rest, value, grow);
      assert Assign(Map([]), rest, value, grow).error == AssignChild(None, rest, value, grow).error;
    }
    assert AssignNode(None, segments, value, grow).error != Some(NotScalar);
    assert AssignNode(Some(if |segments| == 1 then Leaf(None) else Map([])), segments, value, grow).error != Some(NotScalar);
  }

  lemma {:induction false} NotScalarChild(node: Tree, segments: seq<Segment>, value: string, grow: bool)
    requires segments != []
    ensures AssignChild(Some(node), segments, value, grow).error == Some(NotScalar) <==>
            var p := ResolveChild(node, segments); p.Some? && In(p.value, node) && !At(node, p.value).Leaf?
    decreases |segments|, 1
  {
    if segments[0].index.None? {
      NotScalarNode(node, segments, value, grow);
    } else if node.Seq? {
      var index := segments[0].index.value;
      if index < |node.items| {
        NotScalarNode(node.items[index], segments, value, grow);
        PrefixedAt(node, index, ResolveNode(node.items[index], segments));
      } else {
        var rest := segments[1..];
        if rest != [] {
          FreshIsNotNotScalar(rest, value, grow);
          assert Assign(Map([]), rest, value, grow).error == AssignChild(None, rest, value, grow).error;
        }
        assert AssignNode(Some(if |segments| == 1 then Leaf(None) else Map([])), segments, value, grow).error != Some(NotScalar);
      }
    }
  }

  lemma {:induction false} NotScalarNode(node: Tree, segments: seq<Segment>, value: string, grow: bool)
    requires segments != []
    ensures AssignNode(Some(node), segments, value, grow).error == Some(NotScalar) <==>
            var p := ResolveNode(node, segments); p.Some? && In(p.value, node) && !At(node, p.value).Leaf?
    decreases |segments|, 0
  {
    var rest := segments[1..];
    if rest != [] && node.Seq? && |node.items| == 1 {
      NotScalarIff(node.items[0], rest, value, grow);
      PrefixedAt(node, 0, Resolve(node.items[0], rest));
    } else if rest != [] && node.Seq? && node.items == [] {
      FreshIsNotNotScalar(rest, value, grow);
      assert Assign(Map([]), rest, value, grow).error == AssignChild(None, rest, value, grow).error;
    } else if rest != [] {
      NotScalarIff(node, rest, value, grow);
    }
  }

  /** Whatever an override achieves, an assignment that may grow sequences achieves
      in the same way. */
  lemma {:induction false} GrowOnlyAddsSuccess(t: Tree, segments: seq<Segment>, value: string)
    requires segments != [] && Assign(t, segments, value, false).error.None?
    ensures Assign(t, segments, value, true) == Assign(t, segments, value, false)
    decreases |segments|, 2
  {
    var k := Find(t.entries, segments[0].key);
    GrowChild(if k < |t.entries| then Some(t.entries[k].node) else None, segments, value);
  }

  lemma {:induction false} GrowChild(slot: Option<Tree>, segments: seq<Segment>, value: string)
    requires segments != [] && AssignChild(slot, segments, value, false).error.None?
    ensures AssignChild(slot, segments, value, true) == AssignChild(slot, segments, value, false)
    decreases |segments|, 1
  {
    if segments[0].index.None? {
      GrowNode(slot, segments, value);
    } else {
      var items, index := slot.value.items, segments[0].index.value;
      assert Extend(items, index, if |segments| == 1 then Leaf(None) else Map([])) == items;
      GrowNode(Some(items[index]), segments, value);
    }
  }

  lemma {:induction false} GrowNode(slot: Option<Tree>, segments: seq<Segment>, value: string)
    requires segments != [] && AssignNode(slot, segments, value, false).error.None?
    ensures AssignNode(slot, segments, value, true) == AssignNode(slot, segments, value, false)
    decreases |segments|, 0
  {
    var rest := segments[1..];
    if rest != [] {
      var node := if slot.None? then Map([]) else slot.value;
      GrowOnlyAddsSuccess(if node.Map? then node else if node.items == [] then Map([]) else node.items[0], rest, value);
    }
  }
}
