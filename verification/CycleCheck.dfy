/** The start-up check that processors do not feed each other in a circle
    (src/controller/MLDPPVXSController.cpp:99-198): a depth-first search with
    three colours that throws when it meets a node it is still visiting. */
module CycleCheck {
  import opened Wrappers
  import opened Sequences

  /** A processor as the check sees it. */
  datatype Processor = Processor(name: string, inputs: seq<string>, outputs: seq<string>)

  // ----- the producer-to-consumer graph --------------------------------------

  /** The outputs registered for a name: the first processor of that name counts. */
  function OutputsOf(ps: seq<Processor>, name: string): seq<string> {
    if ps == [] then [] else if ps[0].name == name then ps[0].outputs else OutputsOf(ps[1..], name)
  }

  function Names(ps: seq<Processor>): set<string> { set p | p in ps :: p.name }

  predicate Consumes(c: Processor, outputs: seq<string>) {
    exists x :: x in c.inputs && x in outputs
  }

  /** Some processor named `b` reads what `a` writes; a processor does not feed itself. */
  predicate Feeds(ps: seq<Processor>, a: string, b: string) {
    a != b && a in Names(ps) && exists c :: c in ps && c.name == b && Consumes(c, OutputsOf(ps, a))
  }

  /** The processor at i is the first of its name. */
  ghost predicate FirstNamed(ps: seq<Processor>, i: nat) {
    i < |ps| && forall j :: 0 <= j < i ==> ps[j].name != ps[i].name
  }

  lemma {:induction false} OutputsOfFirst(ps: seq<Processor>, i: nat)
    requires FirstNamed(ps, i)
    ensures OutputsOf(ps, ps[i].name) == ps[i].outputs
  {
    if i > 0 {
      assert ps[0].name != ps[i].name;
      OutputsOfFirst(ps[1..], i - 1);
    }
  }

  lemma {:induction false} FirstOfName(ps: seq<Processor>, k: nat) returns (i: nat)
    requires k < |ps|
    ensures FirstNamed(ps, i) && ps[i].name == ps[k].name
    decreases k
  {
    i := k;
    if j :| 0 <= j < k && ps[j].name == ps[k].name { i := FirstOfName(ps, j); }
  }

  /** There is an edge between two names exactly when they differ and the first processor
      of the one writes a source that some processor of the other reads. */
  lemma FeedsIff(ps: seq<Processor>, a: string, b: string)
    ensures Feeds(ps, a, b) <==>
            a != b && exists i: nat, j: nat, x :: FirstNamed(ps, i) && ps[i].name == a && j < |ps| && ps[j].name == b
                                                  && x in ps[i].outputs && x in ps[j].inputs
  {
    if Feeds(ps, a, b) {
      var p :| p in ps && p.name == a;
      var k :| 0 <= k < |ps| && ps[k] == p;
      var i := FirstOfName(ps, k);
      OutputsOfFirst(ps, i);
      var c :| c in ps && c.name == b && Consumes(c, OutputsOf(ps, a));
      var j :| 0 <= j < |ps| && ps[j] == c;
      var x :| x in c.inputs && x in OutputsOf(ps, a);
      assert x in ps[i].outputs && x in ps[j].inputs;
    }
    if i: nat, j: nat, x :| FirstNamed(ps, i) && ps[i].name == a && j < |ps| && ps[j].name == b && x in ps[i].outputs && x in ps[j].inputs {
      OutputsOfFirst(ps, i);
      assert ps[i] in ps && ps[j] in ps && Consumes(ps[j], OutputsOf(ps, a));
    }
  }

  /** A closed walk along edges, written with its first node repeated at the end. */
  ghost predicate IsCycle(ps: seq<Processor>, walk: seq<string>) {
    && |walk| >= 2
    && walk[0] == walk[|walk|-1]
    && forall i :: 0 <= i < |walk| - 1 ==> Feeds(ps, walk[i], walk[i+1])
  }

  type Graph = map<string, seq<string>>

  ghost predicate GraphOf(ps: seq<Processor>, graph: Graph) {
    && graph.Keys == Names(ps)
    && forall a, b :: a in graph ==> (b in graph[a] <==> Feeds(ps, a, b))
  }

  method ComputeConsumes(c: Processor, outputs: seq<string>) returns (r: bool)
    ensures r == Consumes(c, outputs)
  {
    for i := 0 to |c.inputs|
      invariant forall k :: 0 <= k < i ==> c.inputs[k] !in outputs
    {
      if c.inputs[i] in outputs { return true; }
    }
    return false;
  }

  method CollectOutputs(ps: seq<Processor>) returns (outputs: map<string, seq<string>>)
    ensures outputs.Keys == Names(ps)
    ensures forall n :: n in outputs ==> outputs[n] == OutputsOf(ps, n)
  {
    outputs := map[];
    for i := 0 to |ps|
      invariant forall n :: n in outputs <==> n in Names(ps[..i])
      invariant forall n :: n in outputs ==> outputs[n] == OutputsOf(ps[..i], n)
    {
      forall n ensures OutputsOf(ps[..i+1], n) == if n in Names(ps[..i]) then OutputsOf(ps[..i], n)
                                                else if n == ps[i].name then ps[i].outputs else []
      {
        OutputsOfExtend(ps[..i], ps[i], n);
        assert ps[..i+1] == ps[..i] + [ps[i]];
      }
      if ps[i].name !in outputs { outputs := outputs[ps[i].name := ps[i].outputs]; }
    }
    assert ps[..|ps|] == ps;
  }

  lemma {:induction false} OutputsOfExtend(ps: seq<Processor>, p: Processor, name: string)
    ensures OutputsOf(ps + [p], name) ==
            if name in Names(ps) then OutputsOf(ps, name) else if name == p.name then p.outputs else []
  {
    if ps != [] {
      assert (ps + [p])[1..] == ps[1..] + [p];
      OutputsOfExtend(ps[1..], p, name);
    }
  }

  /** The inner loop: the names that one producer is linked to. */
  method ConsumersOf(ps: seq<Processor>, producer: string, outputs: seq<string>) returns (row: seq<string>)
    ensures forall b :: b in row <==> b != producer && exists c :: c in ps && c.name == b && Consumes(c, outputs)
  {
    row := [];
    for j := 0 to |ps|
      invariant forall b :: b in row <==> b != producer && exists c :: c in ps[..j] && c.name == b && Consumes(c, outputs)
    {
      if producer != ps[j].name {
        var depends := ComputeConsumes(ps[j], outputs);
        if depends { row := row + [ps[j].name]; }
      }
    }
    assert ps[..|ps|] == ps;
  }

  /** The adjacency of the producers below i is complete; the others have none yet. */
  ghost predicate GraphBelow(ps: seq<Processor>, graph: Graph, i: nat)
    requires i <= |ps|
  {
    && graph.Keys == Names(ps)
    && forall a :: a in graph ==> if a in Names(ps[..i]) then RowOf(ps, graph[a], a) else graph[a] == []
  }

  ghost predicate RowOf(ps: seq<Processor>, row: seq<string>, a: string) { forall b :: b in row <==> Feeds(ps, a, b) }

  lemma RowAdded(ps: seq<Processor>, graph: Graph, i: nat, row: seq<string>)
    requires i < |ps| && GraphBelow(ps, graph, i) && RowOf(ps, row, ps[i].name)
    ensures ps[i].name in graph && GraphBelow(ps, graph[ps[i].name := graph[ps[i].name] + row], i + 1)
  {
    assert ps[i] in ps;
    assert Names(ps[..i+1]) == Names(ps[..i]) + {ps[i].name} by { assert ps[..i+1] == ps[..i] + [ps[i]]; }
  }

  method BuildGraph(ps: seq<Processor>) returns (graph: Graph)
    ensures GraphOf(ps, graph)
  {
    var outputs := CollectOutputs(ps);
    graph := map n | n in outputs :: [];
    for i := 0 to |ps|
      invariant GraphBelow(ps, graph, i)
    {
      var producer := ps[i].name;
      assert producer in Names(ps) by { assert ps[i] in ps; }
      var row := ConsumersOf(ps, producer, outputs[producer]);
      RowAdded(ps, graph, i, row);
      graph := graph[producer := graph[producer] + row];
    }
    assert ps[..|ps|] == ps;
    assert forall a :: a in graph ==> RowOf(ps, graph[a], a);
  }

  // ----- the report ------------------------------------------------------------

  function IndexOf(stack: seq<string>, name: string): (k: nat)
    ensures k <= |stack|
    ensures k < |stack| ==> stack[k] == name
    ensures forall j :: 0 <= j < k ==> stack[j] != name
  {
    var wanted := n => n == name;
    NoneBefore(stack, wanted);
    FirstIndex(stack, wanted)
  }

  function Join(names: seq<string>): string {
    if names == [] then ""
    else if |names| == 1 then names[0]
    else Join(names[..|names|-1]) + " -> " + names[|names|-1]
  }

  /** The part of the stack from `name` on, closed by `name`. */
  function Loop(stack: seq<string>, name: string): seq<string> {
    if IndexOf(stack, name) == |stack| then [name] else stack[IndexOf(stack, name)..] + [name]
  }

  method DescribeCycle(stack: seq<string>, name: string) returns (text: string)
    ensures text == Join(Loop(stack, name))
  {
    var it := 0;
    while it < |stack| && stack[it] != name
      invariant 0 <= it <= IndexOf(stack, name)
    {
      it := it + 1;
    }
    if it == |stack| { return name; }
    text := stack[it];
    var walk := stack[it..] + [name];
    assert walk[..1] == [stack[it]];
    for current := it + 1 to |stack|
      invariant text == Join(walk[..current - it])
    {
      assert walk[..current + 1 - it][..current - it] == walk[..current - it];
      text := text + " -> " + stack[current];
    }
    assert walk[..|walk|-1] == walk[..|stack| - it];
    text := text + " -> " + name;
  }

  // ----- the search -------------------------------------------------------------

  datatype VisitState = NotVisited | Visiting | Visited

  type Coloring = map<string, VisitState>

  function Color(state: Coloring, n: string): VisitState { if n in state then state[n] else NotVisited }

  ghost predicate Closed(graph: Graph) { forall a, b :: a in graph && b in graph[a] ==> b in graph }

  ghost predicate IsPath(graph: Graph, walk: seq<string>) {
    && (forall n :: n in walk ==> n in graph)
    && (forall i :: 0 <= i < |walk| - 1 ==> walk[i+1] in graph[walk[i]])
  }

  ghost predicate IsLoop(graph: Graph, walk: seq<string>) {
    |walk| >= 2 && walk[0] == walk[|walk|-1] && IsPath(graph, walk)
  }

  /** The nodes being visited are exactly those on the stack, which is a path. */
  ghost predicate StackInv(graph: Graph, state: Coloring, stack: seq<string>) {
    IsPath(graph, stack) && forall n :: Color(state, n) == Visiting <==> n in stack
  }

  /** Every node of `order` has all its successors before it. */
  ghost predicate Topological(graph: Graph, order: seq<string>) {
    forall i :: 0 <= i < |order| ==> order[i] in graph && forall n :: n in graph[order[i]] ==> n in order[..i]
  }

  /** The visited nodes are exactly the finished ones, successors first. */
  ghost predicate FinishedInv(graph: Graph, state: Coloring, finished: seq<string>) {
    Topological(graph, finished) && forall n :: Color(state, n) == Visited <==> n in finished
  }

  ghost function Unvisited(graph: Graph, state: Coloring): set<string> {
    set n | n in graph && Color(state, n) == NotVisited
  }

  ghost predicate Includes(xs: seq<string>, ys: seq<string>) { forall n :: n in ys ==> n in xs }

  lemma IncludesTransitive(xs: seq<string>, ys: seq<string>, zs: seq<string>)
    requires Includes(xs, ys) && Includes(ys, zs)
    ensures Includes(xs, zs)
  {
  }

  lemma Enter(graph: Graph, state: Coloring, stack: seq<string>, finished: seq<string>, node: string)
    requires StackInv(graph, state, stack) && FinishedInv(graph, state, finished)
    requires node in graph && Color(state, node) == NotVisited
    requires stack != [] ==> node in graph[stack[|stack|-1]]
    ensures StackInv(graph, state[node := Visiting], stack + [node])
    ensures FinishedInv(graph, state[node := Visiting], finished)
    ensures Unvisited(graph, state[node := Visiting]) == Unvisited(graph, state) - {node}
    ensures node !in stack
  {
    forall n ensures Color(state[node := Visiting], n) == if n == node then Visiting else Color(state, n) {}
  }

  lemma Leave(graph: Graph, state: Coloring, stack: seq<string>, finished: seq<string>, node: string)
    requires StackInv(graph, state, stack + [node]) && FinishedInv(graph, state, finished)
    requires node in graph && node !in stack && Includes(finished, graph[node])
    ensures StackInv(graph, state[node := Visited], stack)
    ensures FinishedInv(graph, state[node := Visited], finished + [node])
    ensures Unvisited(graph, state[node := Visited]) == Unvisited(graph, state)
  {
    forall n ensures Color(state[node := Visited], n) == if n == node then Visited else Color(state, n) {}
    forall i | 0 <= i < |stack| - 1 ensures stack[i+1] in graph[stack[i]] {
      assert (stack + [node])[i+1] in graph[(stack + [node])[i]];
    }
    TopologicalExtends(graph, finished, node);
    assert node in stack + [node];
    forall n ensures Color(state[node := Visited], n) == Visiting <==> n in stack {
      assert n in stack + [node] <==> n in stack || n == node;
    }
  }

  lemma TopologicalExtends(graph: Graph, order: seq<string>, node: string)
    requires Topological(graph, order) && node in graph && forall n :: n in graph[node] ==> n in order
    ensures Topological(graph, order + [node])
  {
    var after := order + [node];
    forall i | 0 <= i < |after| ensures after[i] in graph && forall n :: n in graph[after[i]] ==> n in after[..i] {
      if i < |order| { assert after[..i] == order[..i] && after[i] == order[i]; } else { assert after[..i] == order; }
    }
  }

  /** Meeting a node that is still being visited closes a loop. */
  lemma ClosesLoop(graph: Graph, state: Coloring, stack: seq<string>, next: string)
    requires StackInv(graph, state, stack) && Color(state, next) == Visiting
    requires stack != [] && next in graph[stack[|stack|-1]]
    ensures IsLoop(graph, Loop(stack, next))
  {
    var k := IndexOf(stack, next);
    var walk := Loop(stack, next);
    assert next in stack;
    forall i | 0 <= i < |walk| - 1 ensures walk[i+1] in graph[walk[i]] {
      assert walk[i] == stack[k + i];
      if i < |walk| - 2 { assert walk[i+1] == stack[k + i + 1]; }
    }
  }

  class Search {
    const graph: Graph
    var state: Coloring
    var stack: seq<string>
    ghost var finished: seq<string>   // visited nodes, in the order they were left

    constructor (graph: Graph)
      requires Closed(graph)
      ensures this.graph == graph && Valid() && stack == [] && state == map[] && finished == []
    {
      this.graph := graph;
      state, stack, finished := map[], [], [];
    }

    ghost predicate Valid()
      reads this
    {
      Closed(graph) && StackInv(graph, state, stack) && FinishedInv(graph, state, finished)
    }

    /** A thrown error is returned as its message; `walk` is the loop it names. */
    method Dfs(node: string) returns (error: Option<string>, ghost walk: seq<string>)
      requires Valid() && node in graph && Color(state, node) == NotVisited
      requires stack != [] ==> node in graph[stack[|stack|-1]]
      modifies this
      ensures error.None? ==> Valid() && stack == old(stack) && node in finished && Includes(finished, old(finished))
      ensures error.None? ==> Unvisited(graph, state) <= old(Unvisited(graph, state))
      ensures error.Some? ==> error.value == Join(walk) && IsLoop(graph, walk)
      decreases Unvisited(graph, state), 0
    {
      ghost var above := stack;
      Enter(graph, state, stack, finished, node);
      state := state[node := Visiting];
      stack := stack + [node];
      error, walk := VisitSuccessors(node);
      if error.Some? { return; }
      Leave(graph, state, above, finished, node);
      stack := stack[..|stack|-1];
      state := state[node := Visited];
      finished := finished + [node];
    }

    /** The loop over the successors of the node on top of the stack. */
    method VisitSuccessors(node: string) returns (error: Option<string>, ghost walk: seq<string>)
      requires Valid() && node in graph && stack != [] && stack[|stack|-1] == node
      modifies this
      ensures error.None? ==> Valid() && stack == old(stack) && Includes(finished, old(finished)) && Includes(finished, graph[node])
      ensures error.None? ==> Unvisited(graph, state) <= old(Unvisited(graph, state))
      ensures error.Some? ==> error.value == Join(walk) && IsLoop(graph, walk)
      decreases Unvisited(graph, state), 1
    {
      var next := graph[node];
      for i := 0 to |next|
        invariant Valid() && stack == old(stack) && Includes(finished, old(finished)) && Includes(finished, next[..i])
        invariant Unvisited(graph, state) <= old(Unvisited(graph, state))
      {
        var s := Color(state, next[i]);
        if s == Visiting {
          ClosesLoop(graph, state, stack, next[i]);
          var text := DescribeCycle(stack, next[i]);
          return Some(text), Loop(stack, next[i]);
        }
        if s == NotVisited {
          ghost var before := finished;
          error, walk := Dfs(next[i]);
          if error.Some? { return; }
          IncludesTransitive(finished, before, old(finished));
          IncludesTransitive(finished, before, next[..i]);
        }
        assert next[..i + 1] == next[..i] + [next[i]];
      }
      assert next[..|next|] == next;
      error, walk := None, [];
    }
  }

  // ----- the verdict ------------------------------------------------------------

  lemma {:induction false} WalkDescends(graph: Graph, order: seq<string>, walk: seq<string>, i: nat, k: nat)
    requires Topological(graph, order) && IsPath(graph, walk)
    requires 0 < i < |walk| && k < |order| && walk[0] in order[..k+1]
    ensures walk[i] in order[..k]
  {
    if i == 1 {
      StepDescends(graph, order, walk[0], walk[1], k);
    } else {
      WalkDescends(graph, order, walk, i - 1, k);
      var j :| 0 <= j < k && order[j] == walk[i-1];
      assert order[..j+1][j] == walk[i-1];
      StepDescends(graph, order, walk[i-1], walk[i], j);
      assert order[..j] <= order[..k];
    }
  }

  lemma StepDescends(graph: Graph, order: seq<string>, a: string, b: string, k: nat)
    requires Topological(graph, order) && k < |order| && a in order[..k+1] && a in graph && b in graph[a]
    ensures b in order[..k]
  {
    var j :| 0 <= j <= k && order[j] == a;
    assert b in order[..j];
  }

  /** A topological order of all nodes leaves no room for a loop. */
  lemma TopologicalHasNoLoop(graph: Graph, order: seq<string>, walk: seq<string>)
    requires Topological(graph, order) && forall n :: n in graph ==> n in order
    ensures !IsLoop(graph, walk)
  {
    if IsLoop(graph, walk) {
      FirstPosition(order, walk[0]);
      var k :| 0 <= k < |order| && order[k] == walk[0] && walk[0] !in order[..k];
      assert order[..k+1][k] == walk[0];
      WalkDescends(graph, order, walk, |walk| - 1, k);
    }
  }

  lemma FirstPosition(order: seq<string>, n: string)
    requires n in order
    ensures exists k :: 0 <= k < |order| && order[k] == n && n !in order[..k]
  {
    var k := IndexOf(order, n);
    assert order[k] == n && n !in order[..k];
  }

  /** validateProcessorGraphAcyclic: it returns normally exactly when no chain of
      processors feeds back into itself; otherwise the message names such a chain. */
  method Validate(ps: seq<Processor>) returns (error: Option<string>, ghost walk: seq<string>)
    ensures error.None? <==> forall w :: !IsCycle(ps, w)
    ensures error.Some? ==> error.value == Join(walk) && IsCycle(ps, walk)
  {
    var graph := BuildGraph(ps);
    EdgesStayInside(ps, graph);
    var search := new Search(graph);
    for i := 0 to |ps|
      invariant search.graph == graph && search.Valid() && search.stack == []
      invariant forall k :: 0 <= k < i ==> ps[k].name in search.finished
    {
      if Color(search.state, ps[i].name) == NotVisited {
        error, walk := search.Dfs(ps[i].name);
        if error.Some? {
          assert IsCycle(ps, walk);
          return;
        }
      }
      assert Color(search.state, ps[i].name) != Visiting;
    }
    error, walk := None, [];
    forall w ensures !IsCycle(ps, w) {
      if IsCycle(ps, w) {
        CycleIsLoop(ps, graph, w);
        TopologicalHasNoLoop(graph, search.finished, w);
      }
    }
  }

  lemma EdgesStayInside(ps: seq<Processor>, graph: Graph)
    requires GraphOf(ps, graph)
    ensures Closed(graph)
  {
    forall a, b | a in graph && b in graph[a] ensures b in graph {
      assert Feeds(ps, a, b);
    }
  }

  lemma CycleIsLoop(ps: seq<Processor>, graph: Graph, walk: seq<string>)
    requires GraphOf(ps, graph) && IsCycle(ps, walk)
    ensures IsLoop(graph, walk)
  {
    forall i | 0 <= i < |walk| - 1 ensures walk[i] in graph && walk[i+1] in graph[walk[i]] {
      assert Feeds(ps, walk[i], walk[i+1]);
    }
    forall n | n in walk ensures n in graph {
      var i :| 0 <= i < |walk| && walk[i] == n;
      if i == |walk| - 1 { assert walk[0] in graph; }
    }
  }
}
