/** The dependency graph of a component: breadth-first dependents, Kahn's ordering of the
    derived nodes, and the cycle report. */
module Reactivity {
  import opened Names
  import opened Finite
  import opened Graphs
  import Tarjan

  datatype NodeKind = Source | Derived | Sink

  datatype DepNode = DepNode(name: string, kind: NodeKind)

  // ----- Facts about reaching backwards -----

  lemma {:induction false} PathBackwards(g: Graph, closed: set<nat>, u: nat, v: nat, p: seq<nat>)
    requires forall a, b | b in closed && Edge(g, a, b) :: a in closed
    requires IsPath(g, u, v, p) && v in closed
    ensures u in closed
    decreases |p|
  {
    if |p| > 1 {
      assert Edge(g, p[0], p[1]);
      PathBackwards(g, closed, p[1], v, p[1..]);
    }
  }

  // A set that no edge enters holds whatever reaches it.
  lemma BackwardsClosed(g: Graph, closed: set<nat>, u: nat, v: nat)
    requires forall a, b | b in closed && Edge(g, a, b) :: a in closed
    requires Reach(g, u, v) && v in closed
    ensures u in closed
  {
    var p :| IsPath(g, u, v, p);
    PathBackwards(g, closed, u, v, p);
  }

  lemma LastEdge(g: Graph, u: nat, v: nat) returns (w: nat)
    requires ReachPlus(g, u, v)
    ensures Reach(g, u, w) && Edge(g, w, v)
  {
    var x :| Edge(g, u, x) && Reach(g, x, v);
    if x == v {
      ReachRefl(g, u);
      w := u;
    } else {
      var p :| IsPath(g, x, v, p);
      w := p[|p| - 2];
      assert IsPath(g, x, w, p[..|p| - 1]);
      assert Edge(g, p[|p| - 2], p[|p| - 1]);
      EdgeThenReach(g, u, x, w);
    }
  }

  ghost predicate HasPredecessor(g: Graph, s: set<nat>, v: nat) {
    exists u :: u in s && Edge(g, u, v)
  }

  // If every member of a finite set has a predecessor in it, the set holds a cycle.
  lemma {:induction false} NoFirstMeansCycle(g: Graph, s: set<nat>) returns (c: nat)
    requires s != {} && forall v {:trigger HasPredecessor(g, s, v)} | v in s :: HasPredecessor(g, s, v)
    ensures c in s && ReachPlus(g, c, c)
    decreases |s|
  {
    hide Reach, ReachPlus;
    var v :| v in s;
    var up := set u | u in s && ReachPlus(g, u, v);
    if v in up {
      return v;
    }
    forall w | w in up || w == v
      ensures HasPredecessor(g, up, w)
    {
      assert HasPredecessor(g, s, w);
      var u :| u in s && Edge(g, u, w);
      StepUp(g, u, w, v);
      assert u in up;
    }
    assert up < s;
    StrictlySmaller(up, s);
    assert HasPredecessor(g, up, v);
    c := NoFirstMeansCycle(g, up);
  }

  lemma StepUp(g: Graph, u: nat, w: nat, v: nat)
    requires Edge(g, u, w) && (w == v || ReachPlus(g, w, v))
    ensures ReachPlus(g, u, v)
  {
    if w == v {
      ReachRefl(g, v);
    } else {
      var x :| Edge(g, w, x) && Reach(g, x, v);
      EdgeThenReach(g, w, x, v);
    }
  }

  // ----- Counting incoming edges -----

  // Edges into v from the first n nodes that are not released yet.
  function Remaining(g: Graph, released: set<nat>, n: nat, v: nat): nat
    requires n <= |g|
  {
    if n == 0 then 0
    else Remaining(g, released, n - 1, v) + (if n - 1 in released then 0 else multiset(g[n - 1])[v])
  }

  lemma {:induction false} ReleaseOne(g: Graph, released: set<nat>, n: nat, v: nat, id: nat)
    requires n <= |g| && id < |g| && id !in released
    ensures Remaining(g, released, n, v)
            == Remaining(g, released + {id}, n, v) + (if id < n then multiset(g[id])[v] else 0)
  {
    if n > 0 {
      ReleaseOne(g, released, n - 1, v, id);
    }
  }

  lemma {:induction false} NoneRemaining(g: Graph, released: set<nat>, n: nat, v: nat)
    requires n <= |g|
    ensures Remaining(g, released, n, v) == 0 <==> forall u: nat | u < n && Edge(g, u, v) :: u in released
  {
    if n > 0 {
      NoneRemaining(g, released, n - 1, v);
      assert multiset(g[n - 1])[v] > 0 <==> Edge(g, n - 1, v);
    }
  }

  // ----- The graph object -----

  function DerivedSet(nodes: seq<DepNode>): set<nat> {
    set i | 0 <= i < |nodes| && nodes[i].kind == Derived
  }

  /** Every derived node once, each after all the nodes that depend on it. */
  ghost predicate DependentsFirst(nodes: seq<DepNode>, g: Graph, order: seq<nat>) {
    && Distinct(order)
    && (forall v: nat :: v in order <==> v in DerivedSet(nodes))
    && (forall j, u: nat | 0 <= j < |order| && Edge(g, u, order[j]) :: u in order[..j])
  }

  class DepGraph {
    var nodes: seq<DepNode>
    var edges: Graph

    constructor ()
      ensures nodes == [] && edges == []
    {
      nodes, edges := [], [];
    }

    ghost predicate Valid()
      reads this
    {
      |nodes| == |edges| && Graphs.Valid(edges)
    }

    method AddNode(name: string, kind: NodeKind) returns (id: nat)
      requires Valid()
      modifies this
      ensures Valid() && id == |old(nodes)|
      ensures nodes == old(nodes) + [DepNode(name, kind)] && edges == old(edges) + [[]]
    {
      id := |nodes|;
      nodes := nodes + [DepNode(name, kind)];
      edges := edges + [[]];
    }

    // A repeated edge is kept once.
    method AddEdge(src: nat, dst: nat)
      requires Valid() && src < |nodes| && dst < |nodes|
      modifies this`edges
      ensures Valid()
      ensures edges == old(edges)[src := if dst in old(edges[src]) then old(edges[src]) else old(edges[src]) + [dst]]
    {
      if dst !in edges[src] {
        edges := edges[src := edges[src] + [dst]];
      }
    }

    // The first node called `name`.
    method NodeByName(name: string) returns (id: Option<nat>)
      ensures id.Some? ==> id.value < |nodes| && nodes[id.value].name == name
      ensures forall i | 0 <= i < |nodes| && (id.None? || i < id.value) :: nodes[i].name != name
    {
      for i := 0 to |nodes|
        invariant forall j | 0 <= j < i :: nodes[j].name != name
      {
        if nodes[i].name == name {
          return Some(i);
        }
      }
      id := None;
    }

    // Queue the unvisited nodes that depend on id.
    method VisitDependents(id: nat, visited: array<bool>, queue: seq<nat>) returns (queue': seq<nat>)
      requires Valid() && visited.Length == |nodes|
      modifies visited
      ensures queue <= queue' && Distinct(queue'[|queue|..])
      ensures forall x: nat | x < |nodes| :: visited[x] <==> old(visited[x]) || Edge(edges, x, id)
      ensures forall x: nat :: x in queue'[|queue|..] <==> x < |nodes| && Edge(edges, x, id) && !old(visited[x])
    {
      queue' := queue;
      for i := 0 to |nodes|
        invariant queue <= queue' && Distinct(queue'[|queue|..])
        invariant forall x: nat | x < |nodes| :: visited[x] <==> old(visited[x]) || (x < i && Edge(edges, x, id))
        invariant forall x: nat :: x in queue'[|queue|..] <==> x < i && Edge(edges, x, id) && !old(visited[x])
      {
        if id in edges[i] && !visited[i] {
          visited[i] := true;
          ghost var before := queue'[|queue|..];
          queue' := queue' + [i];
          assert queue'[|queue|..] == before + [i];
        }
      }
    }

    /** Breadth-first search from `root` against the edges: every node but the root itself
        that depends on it, directly or through others, each once. */
    method DependentsOf(root: nat) returns (result: seq<nat>)
      requires Valid() && root < |nodes|
      ensures Distinct(result)
      ensures forall v: nat :: v in result <==> v < |nodes| && v != root && Reach(edges, v, root)
    {
      hide Reach;
      var visited := new bool[|nodes|](_ => false);
      visited[root] := true;
      result := [];
      var queue := VisitDependents(root, visited, []);
      assert queue[0..] == queue;
      ReachRefl(edges, root);
      SearchStarts(edges, |nodes|, root, visited[..], queue);
      while queue != []
        invariant visited.Length == |nodes| && Searching(edges, |nodes|, root, visited[..], result, queue)
        decreases |nodes| - |result|
      {
        var id := queue[0];
        ghost var before, seen := result, visited[..];
        SearchRoom(edges, |nodes|, root, seen, result, queue);
        var rest := queue[1..];
        assert queue == [id] + rest;
        result := result + [id];
        queue := VisitDependents(id, visited, rest);
        SearchStep(edges, |nodes|, root, seen, before, [id] + rest, visited[..], queue);
      }
      SearchEnds(edges, |nodes|, root, visited[..], result);
    }

    // Count, for every node, the edges that point at it.
    method CountIncoming() returns (inDeg: array<nat>)
      requires Valid()
      ensures fresh(inDeg) && inDeg.Length == |edges|
      ensures forall v: nat | v < |edges| :: inDeg[v] == Remaining(edges, {}, |edges|, v)
    {
      inDeg := new nat[|edges|](_ => 0);
      for u := 0 to |edges|
        invariant forall v: nat | v < |edges| :: inDeg[v] == Remaining(edges, {}, u, v)
      {
        for k := 0 to |edges[u]|
          invariant forall v: nat | v < |edges| :: inDeg[v] == Remaining(edges, {}, u, v) + multiset(edges[u][..k])[v]
        {
          var dep := edges[u][k];
          assert dep in edges[u];
          assert edges[u][..k + 1] == edges[u][..k] + [dep];
          inDeg[dep] := inDeg[dep] + 1;
        }
        assert edges[u][..|edges[u]|] == edges[u];
      }
    }

    // Take id's edges away, queueing each derived node whose count falls to zero.
    method Release(id: nat, inDeg: array<nat>, order: seq<nat>, queue: seq<nat>) returns (queue': seq<nat>)
      requires Valid() && inDeg.Length == |edges|
      requires Ordering(nodes, edges, inDeg[..], order, [id] + queue)
      modifies inDeg
      ensures Ordering(nodes, edges, inDeg[..], order + [id], queue')
    {
      queue' := queue;
      ReleaseStarts(nodes, edges, inDeg[..], order, id, queue);
      assert edges[id][0..] == edges[id];
      for k := 0 to |edges[id]|
        invariant Releasing(nodes, edges, inDeg[..], order, id, queue', edges[id][k..])
      {
        var dep := edges[id][k];
        ghost var before := inDeg[..];
        assert edges[id][k..] == [dep] + edges[id][k + 1..];
        NoUnderflow(nodes, edges, before, order, id, queue', dep, edges[id][k + 1..]);
        inDeg[dep] := inDeg[dep] - 1;
        assert inDeg[..] == before[dep := before[dep] - 1];
        ReleaseStep(nodes, edges, before, order, id, queue', dep, edges[id][k + 1..]);
        if inDeg[dep] == 0 && nodes[dep].kind == Derived {
          queue' := queue' + [dep];
        }
      }
      ReleaseEnds(nodes, edges, inDeg[..], order, id, queue');
    }

    /** Kahn's algorithm over the derived nodes. An order is given exactly when the derived
        nodes hold no cycle and none of them has a dependent that is not derived. */
    method TopoDerived() returns (r: Option<seq<nat>>)
      requires Valid()
      ensures r.Some? ==> DependentsFirst(nodes, edges, r.value)
      ensures r.Some? <==> OnlyDerivedDependents(nodes, edges) && DerivedAcyclic(nodes, edges)
    {
      hide DependentsFirst, OnlyDerivedDependents, DerivedAcyclic, Ordering;
      var inDeg := CountIncoming();
      var queue: seq<nat> := [];
      ghost var counts := inDeg[..];
      for i := 0 to |nodes|
        invariant inDeg.Length == |edges| && inDeg[..] == counts
        invariant Distinct(queue) && forall v: nat :: v in queue <==> v < i && nodes[v].kind == Derived && inDeg[v] == 0
      {
        if nodes[i].kind == Derived && inDeg[i] == 0 {
          DistinctAppend(queue, i);
          queue := queue + [i];
        }
      }
      var order: seq<nat> := [];
      OrderingStarts(nodes, edges, counts, queue);
      while queue != []
        invariant inDeg.Length == |edges| && fresh(inDeg) && Ordering(nodes, edges, inDeg[..], order, queue)
        decreases |nodes| - |order|
      {
        var id := queue[0];
        OrderingRoom(nodes, edges, inDeg[..], order, queue);
        assert queue == [id] + queue[1..];
        queue := Release(id, inDeg, order, queue[1..]);
        order := order + [id];
      }
      counts := inDeg[..];
      var derivedCount := 0;
      for i := 0 to |nodes|
        invariant derivedCount == |DerivedSet(nodes[..i])|
      {
        DerivedOneMore(nodes, i);
        if nodes[i].kind == Derived {
          derivedCount := derivedCount + 1;
        }
      }
      assert nodes[..|nodes|] == nodes;
      OrderingEnds(nodes, edges, counts, order, queue);
      r := if |order| == derivedCount then Some(order) else None;
    }
  }

  // ----- Kahn's ordering -----

  ghost predicate OnlyDerivedDependents(nodes: seq<DepNode>, g: Graph) {
    forall u, v | Edge(g, u, v) && v in DerivedSet(nodes) :: u in DerivedSet(nodes)
  }

  ghost predicate DerivedAcyclic(nodes: seq<DepNode>, g: Graph) {
    forall v | v in DerivedSet(nodes) :: !ReachPlus(g, v, v)
  }

  // The counts are the edges from nodes not yet ordered; the derived nodes at zero are
  // exactly those ordered or queued.
  ghost predicate Ordering(nodes: seq<DepNode>, g: Graph, inDeg: seq<nat>, order: seq<nat>, queue: seq<nat>) {
    && |nodes| == |g| == |inDeg| && Graphs.Valid(g) && Distinct(order + queue)
    && (forall v: nat | v < |g| :: inDeg[v] == Remaining(g, Elements(order), |g|, v))
    && (forall v: nat :: v in order + queue <==> v < |g| && nodes[v].kind == Derived && inDeg[v] == 0)
    && (forall j, u: nat | 0 <= j < |order| && Edge(g, u, order[j]) :: u in order[..j])
  }

  // The same while id's edges are being taken away, `rest` of them still to go.
  ghost predicate Releasing(nodes: seq<DepNode>, g: Graph, inDeg: seq<nat>, order: seq<nat>, id: nat, queue: seq<nat>,
      rest: seq<nat>) {
    && |nodes| == |g| == |inDeg| && Graphs.Valid(g) && Distinct(order + [id] + queue)
    && id < |g| && (forall x | x in rest :: x < |g|)
    && (forall v: nat | v < |g| :: inDeg[v] == Remaining(g, Elements(order + [id]), |g|, v) + multiset(rest)[v])
    && (forall v: nat :: v in order + [id] + queue <==> v < |g| && nodes[v].kind == Derived && inDeg[v] == 0)
    && (forall j, u: nat | 0 <= j < |order| + 1 && Edge(g, u, (order + [id])[j]) :: u in (order + [id])[..j])
  }

  lemma OrderingStarts(nodes: seq<DepNode>, g: Graph, inDeg: seq<nat>, queue: seq<nat>)
    requires |nodes| == |g| == |inDeg| && Graphs.Valid(g) && Distinct(queue)
    requires forall v: nat | v < |g| :: inDeg[v] == Remaining(g, {}, |g|, v)
    requires forall v: nat :: v in queue <==> v < |g| && nodes[v].kind == Derived && inDeg[v] == 0
    ensures Ordering(nodes, g, inDeg, [], queue)
  {
    hide Remaining;
    var none: seq<nat> := [];
    assert none + queue == queue && Elements(none) == {};
  }

  lemma OrderingRoom(nodes: seq<DepNode>, g: Graph, inDeg: seq<nat>, order: seq<nat>, queue: seq<nat>)
    requires Ordering(nodes, g, inDeg, order, queue) && queue != []
    ensures |order| < |nodes|
  {
    DistinctFits(order + queue, |g|);
    assert |order + queue| == |order| + |queue|;
  }

  lemma ReleaseStarts(nodes: seq<DepNode>, g: Graph, inDeg: seq<nat>, order: seq<nat>, id: nat, queue: seq<nat>)
    requires Ordering(nodes, g, inDeg, order, [id] + queue)
    ensures id < |g| && Releasing(nodes, g, inDeg, order, id, queue, g[id])
  {
    hide Remaining;
    var all := order + ([id] + queue);
    assert order + [id] + queue == all && all[|order|] == id && id in all;
    assert id !in order by {
      assert forall i | 0 <= i < |order| :: all[i] == order[i];
    }
    assert Elements(order + [id]) == Elements(order) + {id};
    forall v: nat | v < |g|
      ensures inDeg[v] == Remaining(g, Elements(order + [id]), |g|, v) + multiset(g[id])[v]
    {
      ReleaseOne(g, Elements(order), |g|, v, id);
    }
    forall j, u: nat | 0 <= j < |order| + 1 && Edge(g, u, (order + [id])[j])
      ensures u in (order + [id])[..j]
    {
      assert (order + [id])[..j] == order[..j];
      if j == |order| {
        NoneRemaining(g, Elements(order), |g|, id);
        assert order[..j] == order;
      }
    }
  }

  lemma NoUnderflow(nodes: seq<DepNode>, g: Graph, inDeg: seq<nat>, order: seq<nat>, id: nat, queue: seq<nat>, dep: nat,
      rest: seq<nat>)
    requires Releasing(nodes, g, inDeg, order, id, queue, [dep] + rest)
    ensures dep < |inDeg| && inDeg[dep] > 0
  {
    hide Remaining;
    assert dep in [dep] + rest;
    assert multiset([dep] + rest)[dep] > 0;
  }

  lemma ReleaseStep(nodes: seq<DepNode>, g: Graph, inDeg: seq<nat>, order: seq<nat>, id: nat, queue: seq<nat>, dep: nat,
      rest: seq<nat>)
    requires Releasing(nodes, g, inDeg, order, id, queue, [dep] + rest)
    requires dep < |inDeg| && inDeg[dep] > 0 && |nodes| == |inDeg|
    ensures Releasing(nodes, g, inDeg[dep := inDeg[dep] - 1], order, id,
                      if inDeg[dep] == 1 && nodes[dep].kind == Derived then queue + [dep] else queue, rest)
  {
    hide Remaining;
    var all := order + [id] + queue;
    assert multiset([dep] + rest) == multiset{dep} + multiset(rest);
    forall x | x in rest
      ensures x < |g|
    {
      assert x in [dep] + rest;
    }
    assert dep !in all;
    if inDeg[dep] == 1 && nodes[dep].kind == Derived {
      assert order + [id] + (queue + [dep]) == all + [dep];
      DistinctAppend(all, dep);
    }
  }

  lemma ReleaseEnds(nodes: seq<DepNode>, g: Graph, inDeg: seq<nat>, order: seq<nat>, id: nat, queue: seq<nat>)
    requires Releasing(nodes, g, inDeg, order, id, queue, [])
    ensures Ordering(nodes, g, inDeg, order + [id], queue)
  {
    hide Remaining;
  }

  lemma DerivedOneMore(nodes: seq<DepNode>, i: nat)
    requires i < |nodes|
    ensures |DerivedSet(nodes[..i + 1])| == |DerivedSet(nodes[..i])| + if nodes[i].kind == Derived then 1 else 0
  {
    if nodes[i].kind == Derived {
      assert DerivedSet(nodes[..i + 1]) == DerivedSet(nodes[..i]) + {i};
    } else {
      assert DerivedSet(nodes[..i + 1]) == DerivedSet(nodes[..i]);
    }
  }

  /** A view that shows a memo: nothing is cyclic, but the edge of the sink is counted and
      never released, so there is no order. */
  lemma SinkBlocksOrder()
    ensures var nodes, g := [DepNode("double", Derived), DepNode("view:0", Sink)], [[], [0]];
      Graphs.Valid(g) && (forall v :: !ReachPlus(g, v, v)) && DerivedAcyclic(nodes, g)
        && !OnlyDerivedDependents(nodes, g)
  {
    var nodes, g := [DepNode("double", Derived), DepNode("view:0", Sink)], [[], [0]];
    forall v
      ensures !ReachPlus(g, v, v)
    {
      if ReachPlus(g, v, v) {
        var w :| Edge(g, v, w) && Reach(g, w, v);
        assert v == 1 && w == 0;
        ClosedKeeps(g, {0}, 0, 1);
      }
    }
    assert Edge(g, 1, 0) && 0 in DerivedSet(nodes) && 1 !in DerivedSet(nodes);
  }

  // With the queue empty: the order is complete exactly when nothing blocks it.
  lemma OrderingEnds(nodes: seq<DepNode>, g: Graph, inDeg: seq<nat>, order: seq<nat>, queue: seq<nat>)
    requires Ordering(nodes, g, inDeg, order, queue) && queue == []
    ensures |order| == |DerivedSet(nodes)| ==> DependentsFirst(nodes, g, order)
    ensures |order| == |DerivedSet(nodes)| <==> OnlyDerivedDependents(nodes, g) && DerivedAcyclic(nodes, g)
  {
    hide Remaining, ReachPlus;
    assert order + queue == order;
    DistinctCard(order);
    assert Elements(order) <= DerivedSet(nodes);
    SubsetCard(Elements(order), DerivedSet(nodes));
    if |order| == |DerivedSet(nodes)| {
      assert forall v: nat :: v in order <==> v in Elements(order);
      OrderCertifies(nodes, g, order);
    } else if OnlyDerivedDependents(nodes, g) && DerivedAcyclic(nodes, g) {
      var left := DerivedSet(nodes) - Elements(order);
      var missing := Missing(Elements(order), DerivedSet(nodes));
      assert missing in left;
      forall v | v in left
        ensures HasPredecessor(g, left, v)
      {
        NoneRemaining(g, Elements(order), |g|, v);
        assert inDeg[v] != 0;
        var u: nat :| u < |g| && Edge(g, u, v) && u !in Elements(order);
        assert u in left;
      }
      var c := NoFirstMeansCycle(g, left);
    }
  }

  /** An order of this kind certifies that the derived nodes hold no cycle. */
  lemma OrderCertifies(nodes: seq<DepNode>, g: Graph, order: seq<nat>)
    requires DependentsFirst(nodes, g, order)
    ensures OnlyDerivedDependents(nodes, g) && DerivedAcyclic(nodes, g)
  {
    hide Reach;
    forall u, v | Edge(g, u, v) && v in DerivedSet(nodes)
      ensures u in DerivedSet(nodes)
    {
      assert v in order;
      var j :| 0 <= j < |order| && order[j] == v;
      assert u in order[..j];
    }
    forall v | v in DerivedSet(nodes)
      ensures !ReachPlus(g, v, v)
    {
      if ReachPlus(g, v, v) {
        assert v in order;
        var j :| 0 <= j < |order| && order[j] == v;
        var w := LastEdge(g, v, v);
        var early := Elements(order[..j]);
        forall a, b | b in early && Edge(g, a, b)
          ensures a in early
        {
          var i :| 0 <= i < j && order[i] == b;
          assert a in order[..i];
        }
        assert w in order[..j];
        BackwardsClosed(g, early, v, w);
      }
    }
  }

  // ----- Breadth-first search -----

  // Between two turns: nodes seen reach the root, nodes processed have had their dependents seen.
  ghost predicate Searching(g: Graph, n: nat, root: nat, seen: seq<bool>, result: seq<nat>, queue: seq<nat>) {
    && |seen| == n == |g| && root < n && Graphs.Valid(g) && seen[root] && root !in result + queue
    && Distinct(result + queue)
    && (forall x: nat | x < n && x != root :: seen[x] <==> x in result + queue)
    && (forall x | x in result + queue :: x < n && Reach(g, x, root))
    && (forall x: nat, y: nat | x < n && Edge(g, x, y) && (y == root || y in result) :: seen[x])
  }

  lemma SearchStarts(g: Graph, n: nat, root: nat, seen: seq<bool>, queue: seq<nat>)
    requires |seen| == n == |g| && root < n && Graphs.Valid(g) && seen[root] && Distinct(queue)
    requires forall x: nat | x < n :: seen[x] <==> x == root || Edge(g, x, root)
    requires forall x: nat :: x in queue <==> x < n && Edge(g, x, root) && x != root
    ensures Searching(g, n, root, seen, [], queue)
  {
    hide Reach;
    assert [] + queue == queue;
    forall x | x in queue
      ensures x < n && Reach(g, x, root)
    {
      ReachEdge(g, x, root);
    }
  }

  lemma SearchRoom(g: Graph, n: nat, root: nat, seen: seq<bool>, result: seq<nat>, queue: seq<nat>)
    requires Searching(g, n, root, seen, result, queue) && queue != []
    ensures |result| < n && queue[0] < n
  {
    assert queue[0] in result + queue;
    DistinctFits(result + queue, n);
    assert |result + queue| == |result| + |queue|;
  }

  lemma SearchStep(g: Graph, n: nat, root: nat, seen: seq<bool>, result: seq<nat>, queue: seq<nat>, seen': seq<bool>,
      queue': seq<nat>)
    requires Searching(g, n, root, seen, result, queue) && queue != [] && |seen'| == n
    requires queue[1..] <= queue' && Distinct(queue'[|queue| - 1..])
    requires forall x: nat | x < n :: seen'[x] <==> seen[x] || Edge(g, x, queue[0])
    requires forall x: nat :: x in queue'[|queue| - 1..] <==> x < n && Edge(g, x, queue[0]) && !seen[x]
    ensures Searching(g, n, root, seen', result + [queue[0]], queue')
  {
    hide Reach, Distinct;
    var id: nat, found: seq<nat> := queue[0], queue'[|queue| - 1..];
    var old': seq<nat>, new': seq<nat> := result + queue, result + [id] + queue';
    assert new' == old' + found by {
      assert queue == [id] + queue[1..] && queue' == queue[1..] + found;
    }
    assert id in old' by { assert old'[|result|] == id; }
    forall x | x in found
      ensures x < n && Reach(g, x, root) && x !in old' && x != root
    {
      EdgeThenReach(g, x, id, root);
    }
    DistinctJoin(old', found);
  }

  lemma SearchEnds(g: Graph, n: nat, root: nat, seen: seq<bool>, result: seq<nat>)
    requires Searching(g, n, root, seen, result, [])
    ensures Distinct(result)
    ensures forall v: nat :: v in result <==> v < n && v != root && Reach(g, v, root)
  {
    hide Reach;
    assert result + [] == result;
    forall v: nat | v < n && Reach(g, v, root)
      ensures seen[v]
    {
      var closed := set x: nat | x < n && seen[x];
      BackwardsClosed(g, closed, v, root);
    }
  }
}
