/** Configuration trees, and positions in them. */
module ConfigTree {
  import opened Wrappers
  import opened Sequences

  /** A scalar (None when it has no value), an ordered map, or a sequence. */
  datatype Tree = Leaf(text: Option<string>) | Map(entries: seq<Entry>) | Seq(items: seq<Tree>)

  datatype Entry = Entry(key: string, node: Tree)

  /** The first entry with a key; the number of entries when there is none. */
  function Find(entries: seq<Entry>, key: string): (k: nat)
    ensures k <= |entries| && (k < |entries| ==> entries[k].key == key)
    ensures forall j :: 0 <= j < k ==> entries[j].key != key
  {
    var wanted := (e: Entry) => e.key == key;
    NoneBefore(entries, wanted);
    FirstIndex(entries, wanted)
  }

  function Keys(entries: seq<Entry>): seq<string> {
    if entries == [] then [] else Keys(entries[..|entries|-1]) + [entries[|entries|-1].key]
  }

  function Arity(t: Tree): nat { if t.Map? then |t.entries| else if t.Seq? then |t.items| else 0 }

  function Child(t: Tree, k: nat): (c: Tree)
    requires k < Arity(t)
    ensures c < t
  {
    if t.Map? then t.entries[k].node else t.items[k]
  }

  function WithChild(t: Tree, k: nat, c: Tree): (r: Tree)
    requires k < Arity(t)
    ensures Arity(r) == Arity(t) && Child(r, k) == c
    ensures forall j :: 0 <= j < Arity(t) && j != k ==> Child(r, j) == Child(t, j)
  {
    if t.Map? then Map(t.entries[k := t.entries[k].(node := c)]) else Seq(t.items[k := c])
  }

  /** The child positions from the root to a node. */
  type Position = seq<nat>

  predicate In(p: Position, t: Tree) { p == [] || (p[0] < Arity(t) && In(p[1..], Child(t, p[0]))) }

  function At(t: Tree, p: Position): Tree
    requires In(p, t)
  {
    if p == [] then t else At(Child(t, p[0]), p[1..])
  }

  function Replace(t: Tree, p: Position, c: Tree): Tree
    requires In(p, t)
  {
    if p == [] then c else WithChild(t, p[0], Replace(Child(t, p[0]), p[1..], c))
  }

  lemma {:induction false} AtReplaced(t: Tree, p: Position, c: Tree)
    requires In(p, t)
    ensures In(p, Replace(t, p, c)) && At(Replace(t, p, c), p) == c
  {
    if p != [] { AtReplaced(Child(t, p[0]), p[1..], c); }
  }

  lemma {:induction false} ReplaceTwice(t: Tree, p: Position, c: Tree, d: Tree)
    requires In(p, t)
    ensures In(p, Replace(t, p, c)) && Replace(Replace(t, p, c), p, d) == Replace(t, p, d)
  {
    if p != [] { ReplaceTwice(Child(t, p[0]), p[1..], c, d); }
  }

  lemma {:induction false} ReplaceSame(t: Tree, p: Position)
    requires In(p, t)
    ensures Replace(t, p, At(t, p)) == t
  {
    if p != [] { ReplaceSame(Child(t, p[0]), p[1..]); }
  }

  /** One step further down. */
  lemma {:induction false} Descend(t: Tree, p: Position, k: nat, c: Tree)
    requires In(p, t) && k < Arity(At(t, p))
    ensures In(p + [k], t) && At(t, p + [k]) == Child(At(t, p), k)
    ensures Replace(t, p + [k], c) == Replace(t, p, WithChild(At(t, p), k, c))
  {
    if p == [] {
      assert p + [k] == [k];
    } else {
      Descend(Child(t, p[0]), p[1..], k, c);
      assert (p + [k])[1..] == p[1..] + [k];
    }
  }
}
