/** Finite directed graphs as adjacency lists: paths, reachability and strongly connected sets. */
module Graphs {

  // g[u] lists the successors of u.
  type Graph = seq<seq<nat>>

  ghost predicate Valid(g: Graph) {
    forall u, v | 0 <= u < |g| && v in g[u] :: v < |g|
  }

  ghost predicate Edge(g: Graph, u: nat, v: nat) {
    u < |g| && v in g[u]
  }

  ghost predicate IsPath(g: Graph, u: nat, v: nat, p: seq<nat>) {
    && p != [] && p[0] == u && p[|p| - 1] == v
    && forall i | 0 <= i < |p| - 1 :: Edge(g, p[i], p[i + 1])
  }

  ghost predicate Reach(g: Graph, u: nat, v: nat) {
    exists p :: IsPath(g, u, v, p)
  }

  // At least one edge.
  ghost predicate ReachPlus(g: Graph, u: nat, v: nat) {
    exists w :: Edge(g, u, w) && Reach(g, w, v)
  }

  lemma ReachRefl(g: Graph, u: nat)
    ensures Reach(g, u, u)
  {
    assert IsPath(g, u, u, [u]);
  }

  lemma ReachEdge(g: Graph, u: nat, v: nat)
    requires Edge(g, u, v)
    ensures Reach(g, u, v)
  {
    assert IsPath(g, u, v, [u, v]);
  }

  lemma ReachTrans(g: Graph, u: nat, v: nat, w: nat)
    requires Reach(g, u, v) && Reach(g, v, w)
    ensures Reach(g, u, w)
  {
    var p :| IsPath(g, u, v, p);
    var q :| IsPath(g, v, w, q);
    assert IsPath(g, u, w, p + q[1..]);
  }

  lemma ReachThenEdge(g: Graph, u: nat, v: nat, w: nat)
    requires Reach(g, u, v) && Edge(g, v, w)
    ensures Reach(g, u, w)
  {
    ReachEdge(g, v, w);
    ReachTrans(g, u, v, w);
  }

  lemma EdgeThenReach(g: Graph, u: nat, v: nat, w: nat)
    requires Edge(g, u, v) && Reach(g, v, w)
    ensures Reach(g, u, w)
  {
    ReachEdge(g, u, v);
    ReachTrans(g, u, v, w);
  }

  lemma ReachIsEdgeOrSelf(g: Graph, u: nat, v: nat)
    requires Reach(g, u, v) && u != v
    ensures ReachPlus(g, u, v)
  {
    var p :| IsPath(g, u, v, p);
    assert IsPath(g, p[1], v, p[1..]);
  }

  /** A path that leaves a set crosses its border. */
  lemma Crossing(g: Graph, inside: set<nat>, u: nat, v: nat) returns (a: nat, b: nat)
    requires Reach(g, u, v) && u in inside && v !in inside
    ensures Edge(g, a, b) && a in inside && b !in inside && Reach(g, u, a) && Reach(g, b, v)
  {
    var p :| IsPath(g, u, v, p);
    var i := 0;
    while p[i + 1] in inside
      invariant 0 <= i < |p| - 1 && p[i] in inside
      decreases |p| - i
    {
      i := i + 1;
    }
    a, b := p[i], p[i + 1];
    assert IsPath(g, u, a, p[..i + 1]);
    assert IsPath(g, b, v, p[i + 1..]);
    assert Edge(g, p[i], p[i + 1]);
  }

  // A set that no edge leaves keeps every path that starts in it.
  lemma ClosedKeeps(g: Graph, inside: set<nat>, u: nat, v: nat)
    requires forall a, b | a in inside && Edge(g, a, b) :: b in inside
    requires Reach(g, u, v) && u in inside
    ensures v in inside
  {
    if v !in inside {
      var a, b := Crossing(g, inside, u, v);
    }
  }

  /** A maximal set of nodes that reach each other. */
  ghost predicate IsScc(g: Graph, c: set<nat>) {
    && c != {}
    && (forall x, y | x in c && y in c :: Reach(g, x, y))
    && (forall x, y | x in c && Reach(g, x, y) && Reach(g, y, x) :: y in c)
  }

  lemma SccsEqual(g: Graph, c: set<nat>, d: set<nat>, x: nat)
    requires IsScc(g, c) && IsScc(g, d) && x in c && x in d
    ensures c == d
  {
    forall y
      ensures y in c <==> y in d
    {
    }
  }
}
