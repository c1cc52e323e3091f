/** When an assignment by path succeeds, and with which error it fails otherwise
    (src/config/ConfigOverride.cpp): decided by the last node that the path reaches. */
module AssignmentErrors {
  import opened Wrappers
  import opened PathSyntax
  import opened ConfigTree
  import opened Assignment

  /** The node that the first n segments of a path lead to. */
  function Reached(t: Tree, segments: seq<Segment>, n: nat): Option<Tree>
    requires n <= |segments|
  {
    if n == 0 then Some(t) else AtPosition(t, Resolve(t, segments[..n]))
  }

  function AtPosition(t: Tree, p: Option<Position>): Option<Tree> { if p.Some? && In(p.value, t) then Some(At(t, p.value)) else None }

  /** The path reaches a node by n segments, and none by one more. */
  predicate StopsAfter(t: Tree, segments: seq<Segment>, n: nat) {
    n <= |segments| && Reached(t, segments, n).Some? && (n < |segments| ==> Reached(t, segments, n + 1).None?)
  }

  predicate NamesNoItem(segments: seq<Segment>) { forall s :: s in segments ==> s.index.None? }

  /** What goes wrong at the last node, with the segments that are left. Below the
      root a sequence stands for its only item, or for a new map when it has none. */
  function Verdict(last: Tree, root: bool, rest: seq<Segment>, grow: bool): Option<AssignError> {
    if rest == [] then (if last.Leaf? then None else Some(NotScalar))
    else if last.Seq? && !root then
      if |last.items| > 1 then Some(Ambiguous) else VerdictInMap(if last.items == [] then Map([]) else last.items[0], rest, grow)
    else VerdictInMap(last, rest, grow)
  }

  /** A missing key is created, with sequences only if they may grow; a key that is
      there leads nowhere because of its index. */
  function VerdictInMap(m: Tree, rest: seq<Segment>, grow: bool): Option<AssignError>
    requires rest != []
  {
    if !m.Map? then Some(Mismatch)
    else if Find(m.entries, rest[0].key) == |m.entries| then (if grow || NamesNoItem(rest) then None else Some(Mismatch))
    else if !m.entries[Find(m.entries, rest[0].key)].node.Seq? then Some(Mismatch)
    else if grow then None
    else Some(OutOfRange)
  }

  // ----- below a missing node -----------------------------------------------------------

  lemma {:induction false} FreshChild(segments: seq<Segment>, value: string, grow: bool)
    requires segments != []
    ensures AssignChild(None, segments, value, grow).error == if grow || NamesNoItem(segments) then None else Some(Mismatch)
    decreases |segments|, 0
  {
    var rest := segments[1..];
    assert segments == [segments[0]] + rest;
    if rest != [] { FreshMap(rest, value, grow); }
  }

  lemma {:induction false} FreshMap(segments: seq<Segment>, value: string, grow: bool)
    requires segments != []
    ensures Assign(Map([]), segments, value, grow).error == if grow || NamesNoItem(segments) then None else Some(Mismatch)
    decreases |segments|, 1
  {
    FreshChild(segments, value, grow);
  }

  // ----- one segment further -------------------------------------------------------------

  /** The node that one segment leads to. */
  function Step(t: Tree, s: Segment): Option<Tree> {
    if !t.Map? || Find(t.entries, s.key) == |t.entries| then None
    else
      var c := t.entries[Find(t.entries, s.key)].node;
      if s.index.None? then Some(c)
      else if c.Seq? && s.index.value < |c.items| then Some(c.items[s.index.value])
      else None
  }

  /** Where the next key is looked up. */
  function Inside(node: Tree): Tree { if node.Seq? && |node.items| == 1 then node.items[0] else node }

  lemma AtPrefixed(t: Tree, k: nat, q: Option<Position>)
    requires k < Arity(t)
    ensures AtPosition(t, Assignment.Prefixed([k], q)) == AtPosition(Child(t, k), q)
  {
    PrefixedAt(t, k, q);
  }

  lemma ReachedStep(t: Tree, segments: seq<Segment>, n: nat)
    requires 0 < n <= |segments|
    ensures Reached(t, segments, n) ==
            if Step(t, segments[0]).None? then None
            else if n == 1 then Step(t, segments[0])
            else Reached(Inside(Step(t, segments[0]).value), segments[1..], n - 1)
  {
    var s := segments[..n];
    if t.Map? && Find(t.entries, segments[0].key) < |t.entries| {
      var k := Find(t.entries, segments[0].key);
      var c := t.entries[k].node;
      AtPrefixed(t, k, ResolveChild(c, s));
      if s[0].index.None? {
        ReachedNode(c, segments, n);
      } else if c.Seq? && s[0].index.value < |c.items| {
        AtPrefixed(c, s[0].index.value, ResolveNode(c.items[s[0].index.value], s));
        ReachedNode(c.items[s[0].index.value], segments, n);
      }
    }
  }

  lemma ReachedNode(node: Tree, segments: seq<Segment>, n: nat)
    requires 0 < n <= |segments|
    ensures AtPosition(node, ResolveNode(node, segments[..n])) == if n == 1 then Some(node) else Reached(Inside(node), segments[1..], n - 1)
  {
    assert segments[..n][1..] == segments[1..][..n - 1];
    if n > 1 && node.Seq? && |node.items| == 1 { AtPrefixed(node, 0, Resolve(node.items[0], segments[1..][..n - 1])); }
  }

  // ----- the verdict -------------------------------------------------------------------

  /** The first segment leads nowhere. */
  lemma StopsAtOnce(t: Tree, segments: seq<Segment>, value: string, grow: bool)
    requires segments != [] && Step(t, segments[0]).None?
    ensures Assign(t, segments, value, grow).error == VerdictInMap(t, segments, grow)
  {
    if t.Map? {
      FreshChild(segments, value, grow);
      if segments[1..] != [] { FreshMap(segments[1..], value, grow); }
    }
  }

  /** The first segment leads to a node. */
  lemma PassesOn(t: Tree, segments: seq<Segment>, value: string, grow: bool)
    requires segments != [] && Step(t, segments[0]).Some?
    ensures Assign(t, segments, value, grow).error == AssignNode(Step(t, segments[0]), segments, value, grow).error
  {
  }

  /** Success and every error of an assignment, for all trees and paths: decided by the
      last node that the path reaches and the segments that are left there. */
  lemma {:induction false} AssignmentVerdict(t: Tree, segments: seq<Segment>, value: string, grow: bool, n: nat)
    requires segments != [] && StopsAfter(t, segments, n)
    ensures Assign(t, segments, value, grow).error == Verdict(Reached(t, segments, n).value, n == 0, segments[n..], grow)
    decreases |segments|
  {
    ReachedStep(t, segments, 1);
    if n == 0 {
      StopsAtOnce(t, segments, value, grow);
      assert segments[0..] == segments;
    } else {
      ReachedStep(t, segments, n);
      if n < |segments| { ReachedStep(t, segments, n + 1); }
      PassesOn(t, segments, value, grow);
      var node, rest := Step(t, segments[0]).value, segments[1..];
      assert segments[n..] == rest[n - 1..];
      if rest != [] { NodeVerdict(node, segments, value, grow, n); }
    }
  }

  lemma {:induction false} NodeVerdict(node: Tree, segments: seq<Segment>, value: string, grow: bool, n: nat)
    requires |segments| > 1 && 0 < n <= |segments|
    requires var rest, inside := segments[1..], Inside(node);
             (n > 1 ==> Reached(inside, rest, n - 1).Some?) && (n < |segments| ==> Reached(inside, rest, n).None?)
    ensures var rest, last := segments[1..], if n == 1 then Some(node) else Reached(Inside(node), segments[1..], n - 1);
            AssignNode(Some(node), segments, value, grow).error == Verdict(last.value, false, rest[n - 1..], grow)
    decreases |segments|, 0
  {
    var rest, inside := segments[1..], Inside(node);
    assert rest[0..] == rest;
    if n > 1 { ReachedStep(inside, rest, n - 1); }
    if node.Seq? && node.items == [] {
      FreshMap(rest, value, grow);
    } else if !node.Leaf? && (node.Seq? ==> |node.items| == 1) {
      AssignmentVerdict(inside, rest, value, grow, n - 1);
    }
  }

  /** Every path stops somewhere. */
  lemma {:induction false} EveryPathStops(t: Tree, segments: seq<Segment>, from: nat) returns (n: nat)
    requires from <= |segments| && Reached(t, segments, from).Some?
    ensures StopsAfter(t, segments, n)
    decreases |segments| - from
  {
    n := from;
    if from < |segments| && Reached(t, segments, from + 1).Some? { n := EveryPathStops(t, segments, from + 1); }
  }
}
