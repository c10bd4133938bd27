/** Cycle detection over the live objects of the heap: the cycles reported are the strongly
    connected sets of two or more objects, along the handles that are followed, and a cycle is
    a leak candidate exactly when nothing outside it points into it. */
module HeapCycles {
  import opened Names
  import opened Finite
  import opened Graphs
  import opened Heap
  import Tarjan

  // ----- Who points at whom -----

  predicate Alive(heap: Objects, id: nat) {
    id in heap && heap[id].alive
  }

  // The parts that are followed: those of arrays, structs and enums held by the object itself.
  function Parts(v: Value): seq<Value> {
    if v.Composite? && (v.shape.Array? || v.shape.Struct? || v.shape.Enum?) then v.parts else []
  }

  /** A live object directly holds a handle to another live object. */
  ghost predicate PointsTo(heap: Objects, a: nat, b: nat) {
    Alive(heap, a) && Alive(heap, b) && Handle(b) in Parts(heap[a].value)
  }

  ghost predicate IsChain(heap: Objects, a: nat, b: nat, p: seq<nat>) {
    && p != [] && p[0] == a && p[|p| - 1] == b
    && forall i | 0 <= i < |p| - 1 :: PointsTo(heap, p[i], p[i + 1])
  }

  /** b can be reached from a along handles. */
  ghost predicate Leads(heap: Objects, a: nat, b: nat) {
    exists p :: IsChain(heap, a, b, p)
  }

  /** A live object that no live object points at. */
  ghost predicate IsRoot(heap: Objects, r: nat) {
    Alive(heap, r) && forall a :: !PointsTo(heap, a, r)
  }

  // ----- Building the edge tables -----

  type Table = map<nat, seq<nat>>

  function Row(t: Table, a: nat): seq<nat> {
    if a in t then t[a] else []
  }

  function Pushed(t: Table, a: nat, b: nat): Table {
    t[a := Row(t, a) + [b]]
  }

  // Which edges the tables hold once the objects outside `todo` have been scanned.
  ghost predicate Tables(heap: Objects, edges: Table, incoming: Table, todo: set<nat>) {
    && (forall a, b :: b in Row(edges, a) <==> a !in todo && PointsTo(heap, a, b))
    && (forall a, b :: a in Row(incoming, b) <==> a !in todo && PointsTo(heap, a, b))
    && (forall b | b in incoming :: incoming[b] != [])
  }

  // The object being scanned has its first k parts in the tables.
  ghost predicate Scanning(heap: Objects, edges: Table, incoming: Table, todo: set<nat>, id: nat, k: nat) {
    && Alive(heap, id) && id in todo && k <= |Parts(heap[id].value)|
    && (forall a, b :: b in Row(edges, a) <==> IsScanned(heap, todo, id, k, a, b))
    && (forall a, b :: a in Row(incoming, b) <==> IsScanned(heap, todo, id, k, a, b))
    && (forall b | b in incoming :: incoming[b] != [])
  }

  ghost predicate IsScanned(heap: Objects, todo: set<nat>, id: nat, k: nat, a: nat, b: nat) {
    PointsTo(heap, a, b) && if a == id then k <= |Parts(heap[id].value)| && Handle(b) in Parts(heap[id].value)[..k]
      else a !in todo
  }

  lemma ScanStep(heap: Objects, edges: Table, incoming: Table, todo: set<nat>, id: nat, k: nat)
    requires Scanning(heap, edges, incoming, todo, id, k) && k < |Parts(heap[id].value)|
    ensures var part := Parts(heap[id].value)[k];
      if part.Handle? && Alive(heap, part.id)
      then Scanning(heap, Pushed(edges, id, part.id), Pushed(incoming, part.id, id), todo, id, k + 1)
      else Scanning(heap, edges, incoming, todo, id, k + 1)
  {
    var parts := Parts(heap[id].value);
    assert parts[..k + 1] == parts[..k] + [parts[k]];
    assert parts[k] in parts;
    forall a, b
      ensures IsScanned(heap, todo, id, k + 1, a, b) <==>
              IsScanned(heap, todo, id, k, a, b) || (a == id && parts[k] == Handle(b) && Alive(heap, b))
    {
    }
    hide IsScanned, PointsTo, Parts;
    if parts[k].Handle? && Alive(heap, parts[k].id) {
      PushedRow(edges, id, parts[k].id);
      PushedRow(incoming, parts[k].id, id);
      hide Pushed, Row;
    }
  }

  lemma PushedRow(t: Table, a: nat, b: nat)
    ensures forall x, y :: y in Row(Pushed(t, a, b), x) <==> y in Row(t, x) || (x == a && y == b)
    ensures forall x | x in Pushed(t, a, b) :: x == a || x in t
    ensures (forall x | x in t :: t[x] != []) ==> forall x | x in Pushed(t, a, b) :: Pushed(t, a, b)[x] != []
  {
  }

  method BuildEdges(heap: Objects) returns (edges: Table, incoming: Table)
    ensures Tables(heap, edges, incoming, {})
  {
    hide Tables, Scanning;
    edges, incoming := map[], map[];
    var todo := heap.Keys;
    assert Tables(heap, edges, incoming, todo) by {
      StartTables(heap);
    }
    while todo != {}
      invariant todo <= heap.Keys && Tables(heap, edges, incoming, todo)
      decreases |todo|
    {
      var id :| id in todo;
      if heap[id].alive {
        var parts := Parts(heap[id].value);
        ScanStarts(heap, edges, incoming, todo, id);
        for k := 0 to |parts|
          invariant Scanning(heap, edges, incoming, todo, id, k)
        {
          ScanStep(heap, edges, incoming, todo, id, k);
          if parts[k].Handle? && parts[k].id in heap && heap[parts[k].id].alive {
            var child := parts[k].id;
            edges, incoming := Pushed(edges, id, child), Pushed(incoming, child, id);
          }
        }
        ScanEnds(heap, edges, incoming, todo, id);
      } else {
        DeadSkipped(heap, edges, incoming, todo, id);
      }
      todo := todo - {id};
    }
  }

  lemma StartTables(heap: Objects)
    ensures Tables(heap, map[], map[], heap.Keys)
  {
  }

  lemma ScanStarts(heap: Objects, edges: Table, incoming: Table, todo: set<nat>, id: nat)
    requires Tables(heap, edges, incoming, todo) && id in todo && Alive(heap, id)
    ensures Scanning(heap, edges, incoming, todo, id, 0)
  {
  }

  lemma ScanEnds(heap: Objects, edges: Table, incoming: Table, todo: set<nat>, id: nat)
    requires Alive(heap, id) && Scanning(heap, edges, incoming, todo, id, |Parts(heap[id].value)|)
    ensures Tables(heap, edges, incoming, todo - {id})
  {
    var parts := Parts(heap[id].value);
    assert parts[..|parts|] == parts;
  }

  lemma DeadSkipped(heap: Objects, edges: Table, incoming: Table, todo: set<nat>, id: nat)
    requires Tables(heap, edges, incoming, todo) && !Alive(heap, id)
    ensures Tables(heap, edges, incoming, todo - {id})
  {
  }

  // ----- Live objects by position -----

  /** The live objects in id order, and who points at whom among their positions. */
  ghost predicate LiveGraph(heap: Objects, ids: seq<nat>, g: Graph) {
    && Ascending(ids) && (forall id :: id in ids <==> Alive(heap, id))
    && |g| == |ids| && Graphs.Valid(g)
    && forall u: nat, v: nat | u < |ids| && v < |ids| :: Edge(g, u, v) <==> PointsTo(heap, ids[u], ids[v])
  }

  method LiveIds(heap: Objects) returns (ids: seq<nat>)
    ensures Ascending(ids) && forall id :: id in ids <==> Alive(heap, id)
  {
    ids := Sorted(set id | id in heap && heap[id].alive);
  }

  // The position of every live object.
  ghost predicate Positions(ids: seq<nat>, pos: map<nat, nat>) {
    && (forall id :: id in pos <==> id in ids)
    && (forall u: nat | u < |ids| :: ids[u] in pos && pos[ids[u]] == u)
    && (forall id | id in pos :: pos[id] < |ids| && ids[pos[id]] == id)
  }

  method BuildPositions(ids: seq<nat>) returns (pos: map<nat, nat>)
    requires Ascending(ids)
    ensures Positions(ids, pos)
  {
    pos := map[];
    for u := 0 to |ids|
      invariant forall id :: id in pos <==> id in ids[..u]
      invariant forall w: nat | w < u :: ids[w] in pos && pos[ids[w]] == w
      invariant forall id | id in pos :: pos[id] < u && ids[pos[id]] == id
    {
      assert ids[..u + 1] == ids[..u] + [ids[u]];
      pos := pos[ids[u] := u];
    }
    assert ids[..|ids|] == ids;
  }

  method Successors(row: seq<nat>, pos: map<nat, nat>) returns (r: seq<nat>)
    ensures forall v :: v in r <==> exists id :: id in row && id in pos && pos[id] == v
  {
    r := [];
    for k := 0 to |row|
      invariant forall v :: v in r <==> exists id :: id in row[..k] && id in pos && pos[id] == v
    {
      assert row[..k + 1] == row[..k] + [row[k]];
      if row[k] in pos {
        r := r + [pos[row[k]]];
      }
    }
    assert row[..|row|] == row;
  }

  method BuildGraph(heap: Objects, edges: Table, ids: seq<nat>, pos: map<nat, nat>) returns (g: Graph)
    requires (forall a, b :: b in Row(edges, a) <==> PointsTo(heap, a, b)) && Positions(ids, pos)
    requires Ascending(ids) && forall id :: id in ids <==> Alive(heap, id)
    ensures LiveGraph(heap, ids, g)
  {
    hide Ascending, PointsTo;
    g := [];
    for u := 0 to |ids|
      invariant |g| == u && forall w, v | 0 <= w < u && v in g[w] :: v < |ids|
      invariant forall w: nat, v: nat | w < u :: v in g[w] <==> v < |ids| && PointsTo(heap, ids[w], ids[v])
    {
      var row := Successors(Row(edges, ids[u]), pos);
      forall v: nat
        ensures v in row <==> v < |ids| && PointsTo(heap, ids[u], ids[v])
      {
        if v < |ids| {
          assert ids[v] in pos && pos[ids[v]] == v;
        }
      }
      g := g + [row];
    }
  }

  // ----- Positions and ids tell the same story -----

  lemma {:induction false} PathIsChain(heap: Objects, ids: seq<nat>, g: Graph, u: nat, v: nat, p: seq<nat>)
    requires LiveGraph(heap, ids, g) && u < |ids| && IsPath(g, u, v, p)
    ensures v < |ids| && Leads(heap, ids[u], ids[v])
    decreases |p|
  {
    hide PointsTo, Ascending;
    if |p| == 1 {
      assert IsChain(heap, ids[u], ids[u], [ids[u]]);
    } else {
      assert Edge(g, u, p[1]);
      PathIsChain(heap, ids, g, p[1], v, p[1..]);
      var c :| IsChain(heap, ids[p[1]], ids[v], c);
      assert IsChain(heap, ids[u], ids[v], [ids[u]] + c);
    }
  }

  lemma {:induction false} ChainIsPath(heap: Objects, ids: seq<nat>, g: Graph, u: nat, b: nat, c: seq<nat>)
      returns (v: nat)
    requires LiveGraph(heap, ids, g) && u < |ids| && IsChain(heap, ids[u], b, c)
    ensures v < |ids| && ids[v] == b && Reach(g, u, v)
    decreases |c|
  {
    hide Reach, Ascending;
    if |c| == 1 {
      ReachRefl(g, u);
      v := u;
    } else {
      assert PointsTo(heap, c[0], c[1]);
      var w :| 0 <= w < |ids| && ids[w] == c[1];
      assert IsChain(heap, ids[w], b, c[1..]);
      v := ChainIsPath(heap, ids, g, w, b, c[1..]);
      EdgeThenReach(g, u, w, v);
    }
  }

  lemma LeadsIsReach(heap: Objects, ids: seq<nat>, g: Graph, u: nat, v: nat)
    requires LiveGraph(heap, ids, g) && u < |ids| && v < |ids|
    ensures Leads(heap, ids[u], ids[v]) <==> Reach(g, u, v)
  {
    if Reach(g, u, v) {
      var p :| IsPath(g, u, v, p);
      PathIsChain(heap, ids, g, u, v, p);
    }
    if Leads(heap, ids[u], ids[v]) {
      var c :| IsChain(heap, ids[u], ids[v], c);
      var w := ChainIsPath(heap, ids, g, u, ids[v], c);
      assert w == v;
    }
  }

  // ----- What the roots reach -----

  ghost predicate Seen(seen: seq<bool>, x: nat) {
    x < |seen| && seen[x]
  }

  ghost function Unseen(seen: seq<bool>): set<nat> {
    set x | x in Below(|seen|) && !seen[x]
  }

  // What a search from u adds to the marks.
  ghost predicate Searched(g: Graph, u: nat, before: seq<bool>, after: seq<bool>) {
    && |after| == |before| == |g| && Seen(after, u)
    && (forall x: nat | Seen(before, x) :: Seen(after, x))
    && (forall x: nat | Seen(after, x) && !Seen(before, x) :: Reach(g, u, x))
    && (forall x: nat, y: nat | Seen(after, x) && !Seen(before, x) && Edge(g, x, y) :: Seen(after, y))
  }

  // The search from u has handled its first k successors.
  ghost predicate Searching(g: Graph, u: nat, before: seq<bool>, now: seq<bool>, k: nat) {
    && |now| == |before| == |g| && Seen(now, u) && u < |g| && !Seen(before, u) && k <= |g[u]|
    && (forall x: nat | Seen(before, x) :: Seen(now, x))
    && (forall x: nat | Seen(now, x) && !Seen(before, x) :: Reach(g, u, x))
    && (forall x: nat, y: nat | Seen(now, x) && !Seen(before, x) && x != u && Edge(g, x, y) :: Seen(now, y))
    && (forall i | 0 <= i < k :: Seen(now, g[u][i]))
  }

  lemma SearchStarts(g: Graph, u: nat, before: seq<bool>)
    requires |before| == |g| && u < |g| && !before[u]
    ensures Searching(g, u, before, before[u := true], 0)
    ensures Unseen(before[u := true]) < Unseen(before)
  {
    ReachRefl(g, u);
    hide Reach;
    assert u in Unseen(before);
  }

  lemma SearchStep(g: Graph, u: nat, before: seq<bool>, now: seq<bool>, k: nat, after: seq<bool>)
    requires Searching(g, u, before, now, k) && k < |g[u]| && Searched(g, g[u][k], now, after)
    ensures Searching(g, u, before, after, k + 1)
  {
    var w := g[u][k];
    forall x: nat | Seen(after, x) && !Seen(now, x)
      ensures Reach(g, u, x)
    {
      EdgeThenReach(g, u, w, x);
    }
    hide Reach;
  }

  lemma SearchedLess(g: Graph, u: nat, before: seq<bool>, after: seq<bool>)
    requires Searched(g, u, before, after)
    ensures Unseen(after) <= Unseen(before)
  {
    hide Reach;
    forall x | x in Unseen(after)
      ensures x in Unseen(before)
    {
      assert Seen(before, x) ==> Seen(after, x);
    }
  }

  lemma SearchEnds(g: Graph, u: nat, before: seq<bool>, now: seq<bool>)
    requires u < |g| && Searching(g, u, before, now, |g[u]|)
    ensures Searched(g, u, before, now)
  {
    hide Reach;
  }

  method Search(g: Graph, u: nat, seen: array<bool>)
    requires Graphs.Valid(g) && u < |g| == seen.Length
    modifies seen
    ensures Searched(g, u, old(seen[..]), seen[..])
    decreases Unseen(seen[..])
  {
    hide Searched, Searching, Reach, Unseen;
    ghost var before := seen[..];
    if seen[u] {
      SeenIsSearched(g, u, before);
      return;
    }
    SearchStarts(g, u, before);
    seen[u] := true;
    assert seen[..] == before[u := true];
    for k := 0 to |g[u]|
      invariant Searching(g, u, before, seen[..], k) && Unseen(seen[..]) < Unseen(before)
    {
      ghost var now := seen[..];
      assert g[u][k] in g[u];
      Search(g, g[u][k], seen);
      SearchStep(g, u, before, now, k, seen[..]);
      SearchedLess(g, g[u][k], now, seen[..]);
    }
    SearchEnds(g, u, before, seen[..]);
  }

  lemma SeenIsSearched(g: Graph, u: nat, seen: seq<bool>)
    requires |seen| == |g| && u < |g| && seen[u]
    ensures Searched(g, u, seen, seen)
  {
  }

  /** Marked exactly what some position in the set reaches. */
  ghost predicate MarksReach(g: Graph, from: set<nat>, seen: seq<bool>) {
    && |seen| == |g|
    && (forall x: nat | x < |g| :: seen[x] <==> ReachedFrom(g, from, x))
    && (forall x: nat, y: nat | Seen(seen, x) && Edge(g, x, y) :: Seen(seen, y))
  }

  ghost predicate ReachedFrom(g: Graph, from: set<nat>, x: nat) {
    exists r :: r in from && Reach(g, r, x)
  }

  lemma MarkMore(g: Graph, from: set<nat>, u: nat, before: seq<bool>, after: seq<bool>)
    requires Graphs.Valid(g) && MarksReach(g, from, before) && u < |g| && Searched(g, u, before, after)
    ensures MarksReach(g, from + {u}, after)
  {
    assert forall x: nat, y: nat | Seen(after, x) && Edge(g, x, y) :: Seen(after, y) by {
      hide Reach;
    }
    forall x: nat | x < |g|
      ensures after[x] <==> ReachedFrom(g, from + {u}, x)
    {
      hide Reach;
      if after[x] {
        if before[x] {
          assert ReachedFrom(g, from, x);
          var r :| r in from && Reach(g, r, x);
          assert r in from + {u};
        } else {
          assert Seen(after, x) && !Seen(before, x);
          assert u in from + {u} && Reach(g, u, x);
        }
      }
      if ReachedFrom(g, from + {u}, x) {
        var r :| r in from + {u} && Reach(g, r, x);
        if r == u {
          MarkedKeep(g, after, u, x);
        } else {
          assert r in from;
          assert ReachedFrom(g, from, x);
          assert before[x];
          assert Seen(before, x);
        }
      }
    }
  }

  lemma MarkedKeep(g: Graph, seen: seq<bool>, u: nat, x: nat)
    requires |seen| == |g| && Graphs.Valid(g) && Reach(g, u, x) && Seen(seen, u)
    requires forall a: nat, b: nat | Seen(seen, a) && Edge(g, a, b) :: Seen(seen, b)
    ensures Seen(seen, x)
  {
    hide Reach;
    var marked := set y | y in Below(|g|) && seen[y];
    forall a, b | a in marked && Edge(g, a, b)
      ensures b in marked
    {
      assert Seen(seen, a);
    }
    ClosedKeeps(g, marked, u, x);
  }

  // ----- Classifying a cycle -----

  datatype CycleInfo = CycleInfo(nodes: seq<nat>, isolated: bool, reachableFromRoot: bool, leakCandidate: bool,
                                 suggestions: seq<(nat, nat)>)

  /** Nothing outside the set points into it. */
  ghost predicate Closed(heap: Objects, nodes: seq<nat>) {
    forall a, b | b in nodes && PointsTo(heap, a, b) :: a in nodes
  }

  ghost predicate RootReaches(heap: Objects, nodes: seq<nat>) {
    exists r, x :: IsRoot(heap, r) && x in nodes && Leads(heap, r, x)
  }

  /** A closed set of two or more objects that lead to each other is out of every root's reach. */
  lemma ClosedIsUnreachable(heap: Objects, nodes: seq<nat>)
    requires Closed(heap, nodes)
    requires forall x | x in nodes :: exists a :: PointsTo(heap, a, x)
    ensures !RootReaches(heap, nodes)
  {
    hide PointsTo, Closed;
    if RootReaches(heap, nodes) {
      var r, x :| IsRoot(heap, r) && x in nodes && Leads(heap, r, x);
      var p :| IsChain(heap, r, x, p);
      ChainStartsInside(heap, nodes, p, |p| - 1);
    }
  }

  // Walking a chain backwards never leaves a closed set.
  lemma {:induction false} ChainStartsInside(heap: Objects, nodes: seq<nat>, p: seq<nat>, i: nat)
    requires Closed(heap, nodes) && i < |p| && p[i] in nodes
    requires forall k | 0 <= k < |p| - 1 :: PointsTo(heap, p[k], p[k + 1])
    ensures p[0] in nodes
  {
    hide PointsTo;
    if i > 0 {
      assert PointsTo(heap, p[i - 1], p[i - 1 + 1]);
      ChainStartsInside(heap, nodes, p, i - 1);
    }
  }

  // The ids of some positions.
  function Named(ids: seq<nat>, comp: seq<nat>): seq<nat> {
    seq(|comp|, i requires 0 <= i < |comp| => if comp[i] < |ids| then ids[comp[i]] else 0)
  }

  lemma NamedHas(heap: Objects, ids: seq<nat>, g: Graph, comp: seq<nat>, u: nat)
    requires LiveGraph(heap, ids, g) && u < |ids| && forall w | w in comp :: w < |ids|
    ensures ids[u] in Named(ids, comp) <==> u in comp
  {
    if u in comp {
      var i :| 0 <= i < |comp| && comp[i] == u;
      assert Named(ids, comp)[i] == ids[u];
    }
    if ids[u] in Named(ids, comp) {
      var i :| 0 <= i < |comp| && Named(ids, comp)[i] == ids[u];
      assert comp[i] in comp;
    }
  }

  lemma NamedMember(ids: seq<nat>, comp: seq<nat>, x: nat) returns (u: nat)
    requires x in Named(ids, comp) && forall w | w in comp :: w < |ids|
    ensures u in comp && ids[u] == x
  {
    var i :| 0 <= i < |comp| && Named(ids, comp)[i] == x;
    u := comp[i];
    assert comp[i] in comp;
  }

  lemma NamedDistinct(ids: seq<nat>, comp: seq<nat>)
    requires Ascending(ids) && Distinct(comp) && forall w | w in comp :: w < |ids|
    ensures Distinct(Named(ids, comp))
  {
    forall i, j | 0 <= i < j < |comp|
      ensures Named(ids, comp)[i] != Named(ids, comp)[j]
    {
      assert comp[i] in comp && comp[j] in comp && comp[i] != comp[j];
      assert comp[i] < comp[j] || comp[j] < comp[i];
    }
  }

  // All the recorded owners of the component's objects are in the component.
  ghost predicate OwnersInside(incoming: Table, ids: seq<nat>, pos: map<nat, nat>, comp: seq<nat>) {
    forall u, p | u in comp && u < |ids| && p in Row(incoming, ids[u]) :: p in pos && pos[p] in comp
  }

  lemma NobodyYet(incoming: Table, ids: seq<nat>, pos: map<nat, nat>, comp: seq<nat>)
    ensures OwnersInsideUpTo(incoming, ids, pos, comp, 0)
  {
  }

  lemma Everybody(incoming: Table, ids: seq<nat>, pos: map<nat, nat>, comp: seq<nat>)
    requires OwnersInsideUpTo(incoming, ids, pos, comp, |comp|)
    ensures OwnersInside(incoming, ids, pos, comp)
  {
    hide Row;
  }

  lemma Outsider(incoming: Table, ids: seq<nat>, pos: map<nat, nat>, comp: seq<nat>, u: nat, p: nat)
    requires u in comp && u < |ids| && p in Row(incoming, ids[u]) && (p !in pos || pos[p] !in comp)
    ensures !OwnersInside(incoming, ids, pos, comp)
  {
    hide Row;
  }

  lemma OneMoreInside(incoming: Table, ids: seq<nat>, pos: map<nat, nat>, comp: seq<nat>, k: nat)
    requires k < |comp| && OwnersInsideUpTo(incoming, ids, pos, comp, k)
    requires comp[k] < |ids| ==>
      var owners := Row(incoming, ids[comp[k]]); forall m | 0 <= m < |owners| ::
        owners[m] in pos && pos[owners[m]] in comp
    ensures OwnersInsideUpTo(incoming, ids, pos, comp, k + 1)
  {
    hide Row;
  }

  method IsIsolated(incoming: Table, ids: seq<nat>, pos: map<nat, nat>, comp: seq<nat>) returns (isolated: bool)
    requires forall u | u in comp :: u < |ids|
    ensures isolated <==> OwnersInside(incoming, ids, pos, comp)
  {
    hide OwnersInside, OwnersInsideUpTo, Row;
    isolated := true;
    NobodyYet(incoming, ids, pos, comp);
    for k := 0 to |comp|
      invariant isolated && OwnersInsideUpTo(incoming, ids, pos, comp, k)
    {
      assert comp[k] in comp;
      var owners := Row(incoming, ids[comp[k]]);
      for i := 0 to |owners|
        invariant forall m | 0 <= m < i :: owners[m] in pos && pos[owners[m]] in comp
      {
        if owners[i] !in pos || pos[owners[i]] !in comp {
          Outsider(incoming, ids, pos, comp, comp[k], owners[i]);
          return false;
        }
      }
      OneMoreInside(incoming, ids, pos, comp, k);
    }
    Everybody(incoming, ids, pos, comp);
  }

  ghost predicate OwnersInsideUpTo(incoming: Table, ids: seq<nat>, pos: map<nat, nat>, comp: seq<nat>, k: nat) {
    forall m, p | 0 <= m < k && m < |comp| && comp[m] < |ids| && p in Row(incoming, ids[comp[m]]) ::
      p in pos && pos[p] in comp
  }

  lemma OwnersInsideIsClosed(heap: Objects, edges: Table, incoming: Table, ids: seq<nat>, pos: map<nat, nat>, g: Graph,
      comp: seq<nat>)
    requires Tables(heap, edges, incoming, {}) && LiveGraph(heap, ids, g) && Positions(ids, pos)
    requires forall u | u in comp :: u < |ids|
    ensures OwnersInside(incoming, ids, pos, comp) <==> Closed(heap, Named(ids, comp))
  {
    hide PointsTo, Ascending;
    if OwnersInside(incoming, ids, pos, comp) {
      forall a, b | b in Named(ids, comp) && PointsTo(heap, a, b)
        ensures a in Named(ids, comp)
      {
        var u := NamedMember(ids, comp, b);
        assert a in Row(incoming, ids[u]);
        NamedHas(heap, ids, g, comp, pos[a]);
      }
    }
    if Closed(heap, Named(ids, comp)) {
      forall u, p | u in comp && u < |ids| && p in Row(incoming, ids[u])
        ensures p in pos && pos[p] in comp
      {
        NamedHas(heap, ids, g, comp, u);
        assert PointsTo(heap, p, ids[u]);
        assert p in Named(ids, comp);
        var w := NamedMember(ids, comp, p);
      }
    }
  }

  // The first object's handles that stay inside the component.
  method Suggestions(edges: Table, ids: seq<nat>, pos: map<nat, nat>, comp: seq<nat>) returns (r: seq<(nat, nat)>)
    requires forall u | u in comp :: u < |ids|
    ensures forall a, b :: (a, b) in r <==>
      comp != [] && comp[0] < |ids| && a == ids[comp[0]] && b in Row(edges, a) && b in pos && pos[b] in comp
  {
    r := [];
    if comp != [] {
      assert comp[0] in comp;
      var first := ids[comp[0]];
      var row := Row(edges, first);
      for k := 0 to |row|
        invariant forall a, b :: (a, b) in r <==> a == first && b in row[..k] && b in pos && pos[b] in comp
      {
        assert row[..k + 1] == row[..k] + [row[k]];
        if row[k] in pos && pos[row[k]] in comp {
          r := r + [(first, row[k])];
        }
      }
      assert row[..|row|] == row;
    }
  }

  method AnyReachable(seen: array<bool>, comp: seq<nat>) returns (r: bool)
    requires forall u | u in comp :: u < seen.Length
    ensures r <==> exists u :: u in comp && Seen(seen[..], u)
  {
    for k := 0 to |comp|
      invariant forall m | 0 <= m < k :: !Seen(seen[..], comp[m])
    {
      assert comp[k] in comp;
      if seen[comp[k]] {
        return true;
      }
    }
    r := false;
  }

  /** Two or more distinct live objects, maximal among those that lead to each other. */
  ghost predicate IsCycle(heap: Objects, nodes: seq<nat>) {
    && |nodes| >= 2 && Distinct(nodes)
    && (forall x, y | x in nodes && y in nodes :: Alive(heap, x) && Leads(heap, x, y))
    && (forall x, y | x in nodes && Leads(heap, x, y) && Leads(heap, y, x) :: y in nodes)
  }

  /** What one entry of the report says about its cycle. */
  ghost predicate Described(heap: Objects, c: CycleInfo) {
    && IsCycle(heap, c.nodes)
    && (c.isolated <==> Closed(heap, c.nodes))
    && (c.reachableFromRoot <==> RootReaches(heap, c.nodes))
    && (c.leakCandidate <==> c.isolated)
    && c.suggestions != []
    && (forall a, b :: (a, b) in c.suggestions <==> a == c.nodes[0] && b in c.nodes && PointsTo(heap, a, b))
  }

  ghost predicate Together(cycles: seq<CycleInfo>, a: nat, b: nat) {
    exists i :: 0 <= i < |cycles| && a in cycles[i].nodes && b in cycles[i].nodes
  }

  /** The report as a whole: every cycle of two or more objects once and nothing else. */
  ghost predicate Complete(heap: Objects, cycles: seq<CycleInfo>) {
    && (forall i | 0 <= i < |cycles| :: Described(heap, cycles[i]))
    && (forall i, j, x | 0 <= i < j < |cycles| && x in cycles[i].nodes :: x !in cycles[j].nodes)
    && (forall a, b | a != b && Alive(heap, a) && Alive(heap, b) && Leads(heap, a, b) && Leads(heap, b, a) ::
      Together(cycles, a, b))
  }

  // From a component of the position graph to a cycle of objects.
  lemma ComponentIsCycle(heap: Objects, ids: seq<nat>, g: Graph, comp: seq<nat>)
    requires LiveGraph(heap, ids, g) && Distinct(comp) && |comp| >= 2 && IsScc(g, Elements(comp))
    requires forall u | u in comp :: u < |ids|
    ensures IsCycle(heap, Named(ids, comp))
  {
    hide Reach, Leads, PointsTo;
    var nodes := Named(ids, comp);
    NamedDistinct(ids, comp);
    hide Ascending;
    forall x, y | x in nodes && y in nodes
      ensures Alive(heap, x) && Leads(heap, x, y)
    {
      var u := NamedMember(ids, comp, x);
      var v := NamedMember(ids, comp, y);
      assert u in Elements(comp) && v in Elements(comp);
      LeadsIsReach(heap, ids, g, u, v);
    }
    forall x, y | x in nodes && Leads(heap, x, y) && Leads(heap, y, x)
      ensures y in nodes
    {
      var u := NamedMember(ids, comp, x);
      LeadsAlive(heap, x, y);
      var v :| 0 <= v < |ids| && ids[v] == y;
      LeadsIsReach(heap, ids, g, u, v);
      LeadsIsReach(heap, ids, g, v, u);
      assert u in Elements(comp) && v in Elements(comp);
      NamedHas(heap, ids, g, comp, v);
    }
  }

  lemma LeadsAlive(heap: Objects, x: nat, y: nat)
    requires Alive(heap, x) && Leads(heap, x, y)
    ensures Alive(heap, y)
  {
    var p :| IsChain(heap, x, y, p);
    assert |p| > 1 ==> PointsTo(heap, p[|p| - 2], p[|p| - 2 + 1]);
  }

  // Each member of a cycle is pointed at and points on from inside the cycle.
  lemma CycleNeighbours(heap: Objects, nodes: seq<nat>, x: nat) returns (before: nat, after: nat)
    requires IsCycle(heap, nodes) && x in nodes
    ensures PointsTo(heap, before, x) && PointsTo(heap, x, after) && after in nodes
  {
    hide PointsTo;
    var i :| 0 <= i < |nodes| && nodes[i] == x;
    var y := if i == 0 then nodes[1] else nodes[0];
    assert y in nodes && y != x;
    var p :| IsChain(heap, y, x, p);
    before := p[|p| - 2];
    assert PointsTo(heap, p[|p| - 2], p[|p| - 2 + 1]);
    var q :| IsChain(heap, x, y, q);
    after := q[1];
    assert PointsTo(heap, q[0], q[0 + 1]);
    assert IsChain(heap, x, after, [x, after]);
    assert IsChain(heap, after, y, q[1..]);
    LeadsTrans(heap, after, y, x);
  }

  lemma LeadsTrans(heap: Objects, x: nat, y: nat, z: nat)
    requires Leads(heap, x, y) && Leads(heap, y, z)
    ensures Leads(heap, x, z)
  {
    hide PointsTo;
    var p :| IsChain(heap, x, y, p);
    var q :| IsChain(heap, y, z, q);
    assert IsChain(heap, x, z, p + q[1..]);
  }

  /** Leak classification is sound: an isolated cycle is out of every root's reach. */
  lemma IsolatedIsUnreachable(heap: Objects, nodes: seq<nat>)
    requires IsCycle(heap, nodes) && Closed(heap, nodes)
    ensures !RootReaches(heap, nodes)
  {
    hide PointsTo, Closed, IsCycle, RootReaches;
    forall x | x in nodes
      ensures exists a :: PointsTo(heap, a, x)
    {
      var a, _ := CycleNeighbours(heap, nodes, x);
    }
    ClosedIsUnreachable(heap, nodes);
  }

  // The positions of the roots.
  ghost function Roots(heap: Objects, ids: seq<nat>): set<nat> {
    set u | u in Below(|ids|) && IsRoot(heap, ids[u])
  }

  method FindRoots(heap: Objects, incoming: Table, ids: seq<nat>) returns (roots: set<nat>)
    requires exists edges :: Tables(heap, edges, incoming, {})
    requires forall id :: id in ids <==> Alive(heap, id)
    ensures forall r :: r in roots <==> IsRoot(heap, r)
  {
    ghost var edges :| Tables(heap, edges, incoming, {});
    roots := (set id | id in ids) - incoming.Keys;
    forall r
      ensures r in roots <==> IsRoot(heap, r)
    {
      hide PointsTo;
      if r in incoming {
        assert incoming[r][0] in Row(incoming, r);
        assert PointsTo(heap, incoming[r][0], r);
      } else {
        assert forall a :: a !in Row(incoming, r);
      }
    }
  }

  method MarkReachable(heap: Objects, ids: seq<nat>, pos: map<nat, nat>, g: Graph, roots: set<nat>)
      returns (seen: array<bool>)
    requires LiveGraph(heap, ids, g) && Positions(ids, pos)
    requires forall r :: r in roots <==> IsRoot(heap, r)
    ensures fresh(seen) && MarksReach(g, Roots(heap, ids), seen[..])
  {
    hide MarksReach, Searched, PointsTo, Ascending, Below, Reach;
    seen := new bool[|g|](i => false);
    ghost var from := {};
    NothingMarked(g, seen[..]);
    var todo := roots;
    while todo != {}
      invariant todo <= roots && MarksReach(g, from, seen[..]) && seen.Length == |g|
      invariant forall u: nat :: u in from <==> u < |ids| && ids[u] in roots && ids[u] !in todo
      decreases |todo|
    {
      var r :| r in todo;
      assert Alive(heap, r);
      ghost var before := seen[..];
      Search(g, pos[r], seen);
      MarkMore(g, from, pos[r], before, seen[..]);
      from := from + {pos[r]};
      todo := todo - {r};
    }
    assert from == Roots(heap, ids);
  }

  lemma NothingMarked(g: Graph, seen: seq<bool>)
    requires |seen| == |g| && forall i | 0 <= i < |g| :: !seen[i]
    ensures MarksReach(g, {}, seen)
  {
  }

  lemma ReachableIsRootReaches(heap: Objects, ids: seq<nat>, g: Graph, comp: seq<nat>, seen: seq<bool>)
    requires LiveGraph(heap, ids, g) && MarksReach(g, Roots(heap, ids), seen) && forall u | u in comp :: u < |ids|
    ensures (exists u :: u in comp && Seen(seen, u)) <==> RootReaches(heap, Named(ids, comp))
  {
    hide Reach, Leads, IsRoot, PointsTo, Ascending;
    if u :| u in comp && Seen(seen, u) {
      assert ReachedFrom(g, Roots(heap, ids), u);
      var r :| r in Roots(heap, ids) && Reach(g, r, u);
      LeadsIsReach(heap, ids, g, r, u);
      NamedHas(heap, ids, g, comp, u);
      assert IsRoot(heap, ids[r]) && ids[u] in Named(ids, comp) && Leads(heap, ids[r], ids[u]);
    }
    if RootReaches(heap, Named(ids, comp)) {
      var a, x :| IsRoot(heap, a) && x in Named(ids, comp) && Leads(heap, a, x);
      var u := NamedMember(ids, comp, x);
      RootIsAlive(heap, a);
      var r: nat :| r < |ids| && ids[r] == a;
      LeadsIsReach(heap, ids, g, r, u);
      assert r in Roots(heap, ids);
      assert ReachedFrom(g, Roots(heap, ids), u);
    }
  }

  lemma RootIsAlive(heap: Objects, a: nat)
    requires IsRoot(heap, a)
    ensures Alive(heap, a)
  {
  }

  lemma DescribedHolds(heap: Objects, edges: Table, incoming: Table, ids: seq<nat>, pos: map<nat, nat>, g: Graph,
                       comp: seq<nat>, seen: seq<bool>, c: CycleInfo)
    requires Tables(heap, edges, incoming, {}) && LiveGraph(heap, ids, g) && Positions(ids, pos)
    requires IsComponent(g, comp) && |comp| >= 2 && MarksReach(g, Roots(heap, ids), seen)
    requires c.nodes == Named(ids, comp) && (c.isolated <==> OwnersInside(incoming, ids, pos, comp))
    requires c.reachableFromRoot <==> exists u :: u in comp && Seen(seen, u)
    requires c.leakCandidate <==> c.isolated && !c.reachableFromRoot
    requires forall a, b :: (a, b) in c.suggestions <==>
      a == c.nodes[0] && b in Row(edges, a) && b in pos && pos[b] in comp
    ensures Described(heap, c)
  {
    ComponentIsCycle(heap, ids, g, comp);
    OwnersInsideIsClosed(heap, edges, incoming, ids, pos, g, comp);
    ReachableIsRootReaches(heap, ids, g, comp, seen);
    hide MarksReach, Seen, IsCycle, Closed, RootReaches, OwnersInside, Reach, PointsTo, Tables, LiveGraph, Positions;
    assert Closed(heap, c.nodes) ==> !RootReaches(heap, c.nodes) by {
      if Closed(heap, c.nodes) {
        IsolatedIsUnreachable(heap, c.nodes);
      }
    }
    SuggestionsInside(heap, edges, incoming, ids, pos, g, comp, c);
  }

  lemma SuggestionsInside(heap: Objects, edges: Table, incoming: Table, ids: seq<nat>, pos: map<nat, nat>, g: Graph,
                          comp: seq<nat>, c: CycleInfo)
    requires Tables(heap, edges, incoming, {}) && LiveGraph(heap, ids, g) && Positions(ids, pos)
    requires (forall u | u in comp :: u < |ids|) && comp != [] && c.nodes == Named(ids, comp) && IsCycle(heap, c.nodes)
    requires forall a, b :: (a, b) in c.suggestions <==>
      a == c.nodes[0] && b in Row(edges, a) && b in pos && pos[b] in comp
    ensures c.suggestions != []
    ensures forall a, b :: (a, b) in c.suggestions <==> a == c.nodes[0] && b in c.nodes && PointsTo(heap, a, b)
  {
    hide PointsTo, Ascending, IsCycle;
    forall a, b
      ensures (a, b) in c.suggestions <==> a == c.nodes[0] && b in c.nodes && PointsTo(heap, a, b)
    {
      if b in pos {
        NamedHas(heap, ids, g, comp, pos[b]);
      } else if b in c.nodes {
        var u := NamedMember(ids, comp, b);
      }
    }
    var _, next := CycleNeighbours(heap, c.nodes, c.nodes[0]);
    assert (c.nodes[0], next) in c.suggestions;
  }

  ghost predicate IsComponent(g: Graph, comp: seq<nat>) {
    Distinct(comp) && IsScc(g, Elements(comp)) && forall u | u in comp :: u < |g|
  }

  method Classify(heap: Objects, edges: Table, incoming: Table, ids: seq<nat>, pos: map<nat, nat>, ghost g: Graph,
                  comp: seq<nat>, seen: array<bool>) returns (c: CycleInfo)
    requires Tables(heap, edges, incoming, {}) && LiveGraph(heap, ids, g) && Positions(ids, pos)
    requires IsComponent(g, comp) && |comp| >= 2 && MarksReach(g, Roots(heap, ids), seen[..]) && seen.Length == |g|
    ensures c.nodes == Named(ids, comp) && Described(heap, c)
  {
    hide Tables, Positions, MarksReach, OwnersInside, Described, IsScc;
    assert |g| == |ids|;
    var isolated := IsIsolated(incoming, ids, pos, comp);
    var reachable := AnyReachable(seen, comp);
    var suggestions := Suggestions(edges, ids, pos, comp);
    c := CycleInfo(Named(ids, comp), isolated, reachable, isolated && !reachable, suggestions);
    assert comp[0] in comp && c.nodes[0] == ids[comp[0]];
    DescribedHolds(heap, edges, incoming, ids, pos, g, comp, seen[..], c);
  }

  ghost predicate AllDescribed(heap: Objects, ids: seq<nat>, sccs: seq<seq<nat>>, cycles: seq<CycleInfo>) {
    |cycles| <= |sccs| && forall i | 0 <= i < |cycles| ::
      cycles[i].nodes == Named(ids, sccs[i]) && Described(heap, cycles[i])
  }

  lemma ReportedIsComponent(g: Graph, found: seq<seq<nat>>, k: nat)
    requires Tarjan.Components(g, found) && k < |Tarjan.Reported(found, 2)|
    ensures IsComponent(g, Tarjan.Reported(found, 2)[k]) && |Tarjan.Reported(found, 2)[k]| >= 2
  {
    hide IsScc, Tarjan.Reported;
    var comp := Tarjan.Reported(found, 2)[k];
    Tarjan.ReportedMembers(found, 2, comp);
    var i :| 0 <= i < |found| && found[i] == comp;
  }

  // No position is in two of the lists reported.
  lemma {:induction false} ReportedApart(g: Graph, found: seq<seq<nat>>, i: nat, j: nat, x: nat)
    requires forall a, b, y | 0 <= a < |found| && 0 <= b < |found| && y in found[a] && y in found[b] :: a == b
    requires i < j < |Tarjan.Reported(found, 2)| && x in Tarjan.Reported(found, 2)[i]
    ensures x !in Tarjan.Reported(found, 2)[j]
    decreases |found|
  {
    var front, last := found[..|found| - 1], found[|found| - 1];
    var r := Tarjan.Reported(front, 2);
    if j < |r| {
      ReportedApart(g, front, i, j, x);
    } else {
      Tarjan.ReportedMembers(front, 2, r[i]);
      assert r[i] in front;
      var a :| 0 <= a < |front| && front[a] == r[i];
    }
  }

  lemma CompleteHolds(heap: Objects, ids: seq<nat>, g: Graph, found: seq<seq<nat>>, cycles: seq<CycleInfo>)
    requires LiveGraph(heap, ids, g) && Tarjan.Components(g, found)
    requires AllDescribed(heap, ids, Tarjan.Reported(found, 2), cycles) && |cycles| == |Tarjan.Reported(found, 2)|
    ensures Complete(heap, cycles)
  {
    hide Described, PointsTo, Ascending, Reach, Leads, Tarjan.Reported, IsScc;
    var sccs := Tarjan.Reported(found, 2);
    forall i, j, x | 0 <= i < j < |cycles| && x in cycles[i].nodes
      ensures x !in cycles[j].nodes
    {
      ReportedIsComponent(g, found, i);
      ReportedIsComponent(g, found, j);
      var u := NamedMember(ids, sccs[i], x);
      ReportedApart(g, found, i, j, u);
      NamedHas(heap, ids, g, sccs[j], u);
    }
    forall a, b | a != b && Alive(heap, a) && Alive(heap, b) && Leads(heap, a, b) && Leads(heap, b, a)
      ensures Together(cycles, a, b)
    {
      var u: nat :| u < |ids| && ids[u] == a;
      var v: nat :| v < |ids| && ids[v] == b;
      LeadsIsReach(heap, ids, g, u, v);
      LeadsIsReach(heap, ids, g, v, u);
      var k := SharedComponent(g, found, u, v);
      ReportedIsComponent(g, found, k);
      NamedHas(heap, ids, g, sccs[k], u);
      NamedHas(heap, ids, g, sccs[k], v);
      assert a in cycles[k].nodes && b in cycles[k].nodes;
    }
  }

  lemma SharedComponent(g: Graph, found: seq<seq<nat>>, u: nat, v: nat) returns (k: nat)
    requires Tarjan.Components(g, found) && u < |g| && v < |g| && u != v && Reach(g, u, v) && Reach(g, v, u)
    ensures k < |Tarjan.Reported(found, 2)| && u in Tarjan.Reported(found, 2)[k] && v in Tarjan.Reported(found, 2)[k]
  {
    hide Reach, Tarjan.Reported;
    Tarjan.ComponentsExact(g, found);
    hide Tarjan.FoundGood;
    assert Tarjan.Listed(found, u);
    var i :| 0 <= i < |found| && u in found[i];
    assert |found[i]| >= 2;
    Tarjan.ReportedMembers(found, 2, found[i]);
    assert found[i] in found;
    k :| 0 <= k < |Tarjan.Reported(found, 2)| && Tarjan.Reported(found, 2)[k] == found[i];
  }

  /** The whole pass: the report lists every cycle of two or more live objects once and nothing
      else, and for each says whether anything outside points in, whether a root reaches it, and whether
      it is a leak candidate, which is so exactly when it is isolated. */
  method DetectCycles(heap: Objects) returns (cycles: seq<CycleInfo>, leaks: nat)
    ensures Complete(heap, cycles) && leaks == |Leaking(cycles)|
  {
    hide Tables, LiveGraph, Positions, MarksReach, Described, Complete, Tarjan.Components, Tarjan.Reported,
      Tarjan.ReportsExactly, IsRoot;
    var edges, incoming := BuildEdges(heap);
    var ids := LiveIds(heap);
    var pos := BuildPositions(ids);
    var roots := FindRoots(heap, incoming, ids);
    EdgesExact(heap, edges, incoming);
    var g := BuildGraph(heap, edges, ids, pos);
    LiveGraphValid(heap, ids, g);
    var sccs, found := Tarjan.Run(g, 2);
    var seen := MarkReachable(heap, ids, pos, g, roots);
    MarksLength(g, Roots(heap, ids), seen[..]);
    ghost var marks := seen[..];
    cycles, leaks := [], 0;
    for k := 0 to |sccs|
      invariant seen[..] == marks && |cycles| == k && AllDescribed(heap, ids, sccs, cycles)
        && leaks == |Leaking(cycles)|
    {
      ReportedIsComponent(g, found, k);
      var c := Classify(heap, edges, incoming, ids, pos, g, sccs[k], seen);
      if c.leakCandidate {
        leaks := leaks + 1;
      }
      assert (cycles + [c])[..k] == cycles;
      cycles := cycles + [c];
    }
    CompleteHolds(heap, ids, g, found, cycles);
  }

  function Leaking(cycles: seq<CycleInfo>): seq<CycleInfo> {
    if cycles == [] then []
    else
      var last := cycles[|cycles| - 1];
      Leaking(cycles[..|cycles| - 1]) + (if last.leakCandidate then [last] else [])
  }

  lemma EdgesExact(heap: Objects, edges: Table, incoming: Table)
    requires Tables(heap, edges, incoming, {})
    ensures forall a, b :: b in Row(edges, a) <==> PointsTo(heap, a, b)
  {
  }

  lemma LiveGraphValid(heap: Objects, ids: seq<nat>, g: Graph)
    requires LiveGraph(heap, ids, g)
    ensures Graphs.Valid(g)
  {
  }

  lemma MarksLength(g: Graph, from: set<nat>, seen: seq<bool>)
    requires MarksReach(g, from, seen)
    ensures |seen| == |g|
  {
  }

  // ----- Handles that are not followed -----

  /** A live object holds a handle to another one, however deep inside its value. */
  ghost predicate Refers(heap: Objects, a: nat, b: nat) {
    Alive(heap, a) && Alive(heap, b) && b in Handles(heap[a].value)
  }

  ghost predicate IsWay(heap: Objects, a: nat, b: nat, p: seq<nat>) {
    && p != [] && p[0] == a && p[|p| - 1] == b
    && forall i | 0 <= i < |p| - 1 :: Refers(heap, p[i], p[i + 1])
  }

  /** b can be reached from a along all handles. */
  ghost predicate Holds(heap: Objects, a: nat, b: nat) {
    exists p :: IsWay(heap, a, b, p)
  }

  lemma PointsRefers(heap: Objects, a: nat, b: nat)
    requires PointsTo(heap, a, b)
    ensures Refers(heap, a, b)
  {
    var parts := Parts(heap[a].value);
    var i :| 0 <= i < |parts| && parts[i] == Handle(b);
    HandlesOfPart(parts, i);
  }

  lemma LeadsHolds(heap: Objects, a: nat, b: nat)
    requires Leads(heap, a, b)
    ensures Holds(heap, a, b)
  {
    hide PointsTo, Refers;
    var p :| IsChain(heap, a, b, p);
    forall i | 0 <= i < |p| - 1
      ensures Refers(heap, p[i], p[i + 1])
    {
      PointsRefers(heap, p[i], p[i + 1]);
    }
    assert IsWay(heap, a, b, p);
  }

  lemma HoldsTrans(heap: Objects, x: nat, y: nat, z: nat)
    requires Holds(heap, x, y) && Holds(heap, y, z)
    ensures Holds(heap, x, z)
  {
    hide Refers;
    var p :| IsWay(heap, x, y, p);
    var q :| IsWay(heap, y, z, q);
    assert IsWay(heap, x, z, p + q[1..]);
  }

  /** A handle that closes a cycle is followed, or another way stands in for it. */
  ghost predicate Followed(heap: Objects) {
    forall a, b | Refers(heap, a, b) && a != b && Holds(heap, b, a) :: Leads(heap, a, b)
  }

  /** Different live objects are reported together exactly when they hold each other. */
  ghost predicate ReportsAll(heap: Objects, cycles: seq<CycleInfo>) {
    forall a, b | a != b && Alive(heap, a) && Alive(heap, b) ::
      Together(cycles, a, b) <==> Holds(heap, a, b) && Holds(heap, b, a)
  }

  // Along a cycle of handles, all of them followed.
  lemma {:induction false} WayIsLed(heap: Objects, a: nat, b: nat, p: seq<nat>)
    requires Followed(heap) && IsWay(heap, a, b, p) && Holds(heap, b, a)
    ensures Leads(heap, a, b)
    decreases |p|
  {
    hide Refers, PointsTo;
    if |p| == 1 {
      assert IsChain(heap, a, b, p);
    } else {
      var c, rest := p[1], p[1..];
      assert Refers(heap, p[0], p[0 + 1]);
      forall i | 0 <= i < |rest| - 1
        ensures Refers(heap, rest[i], rest[i + 1])
      {
        assert Refers(heap, p[i + 1], p[i + 1 + 1]);
      }
      assert IsWay(heap, c, b, rest) && IsWay(heap, a, c, [a, c]);
      HoldsTrans(heap, c, b, a);
      HoldsTrans(heap, b, a, c);
      WayIsLed(heap, c, b, rest);
      if a != c {
        LeadsTrans(heap, a, c, b);
      }
    }
  }

  lemma TogetherIsLed(heap: Objects, cycles: seq<CycleInfo>, a: nat, b: nat)
    requires Complete(heap, cycles) && Together(cycles, a, b)
    ensures Leads(heap, a, b) && Leads(heap, b, a)
  {
    hide Leads, Closed, RootReaches;
    var i :| 0 <= i < |cycles| && a in cycles[i].nodes && b in cycles[i].nodes;
    assert Described(heap, cycles[i]);
  }

  /** The report covers all cycles of handles between different objects if and only if each handle that closes a cycle
      is followed, or bypassed by handles that are. */
  lemma ReportsAllExactlyWhenFollowed(heap: Objects, cycles: seq<CycleInfo>)
    requires Complete(heap, cycles)
    ensures ReportsAll(heap, cycles) <==> Followed(heap)
  {
    hide Leads, Holds, Complete, Refers;
    if ReportsAll(heap, cycles) {
      forall a, b | Refers(heap, a, b) && a != b && Holds(heap, b, a)
        ensures Leads(heap, a, b)
      {
        EdgeHolds(heap, a, b);
        TogetherIsLed(heap, cycles, a, b);
      }
    }
    if Followed(heap) {
      forall a, b | a != b && Alive(heap, a) && Alive(heap, b)
        ensures Together(cycles, a, b) <==> Holds(heap, a, b) && Holds(heap, b, a)
      {
        if Together(cycles, a, b) {
          TogetherIsLed(heap, cycles, a, b);
          LeadsHolds(heap, a, b);
          LeadsHolds(heap, b, a);
        }
        if Holds(heap, a, b) && Holds(heap, b, a) {
          HeldIsLed(heap, a, b);
          HeldIsLed(heap, b, a);
          assert Together(cycles, a, b) by { CompleteTogether(heap, cycles, a, b); }
        }
      }
    }
  }

  lemma EdgeHolds(heap: Objects, a: nat, b: nat)
    requires Refers(heap, a, b)
    ensures Holds(heap, a, b) && Alive(heap, a) && Alive(heap, b)
  {
    assert IsWay(heap, a, b, [a, b]);
  }

  lemma HeldIsLed(heap: Objects, a: nat, b: nat)
    requires Followed(heap) && Holds(heap, a, b) && Holds(heap, b, a)
    ensures Leads(heap, a, b)
  {
    hide Refers, PointsTo, Followed;
    var p :| IsWay(heap, a, b, p);
    WayIsLed(heap, a, b, p);
  }

  lemma CompleteTogether(heap: Objects, cycles: seq<CycleInfo>, a: nat, b: nat)
    requires Complete(heap, cycles) && a != b && Alive(heap, a) && Alive(heap, b) && Leads(heap, a, b)
      && Leads(heap, b, a)
    ensures Together(cycles, a, b)
  {
    hide Described, Leads;
  }

  // Two arrays that hold each other, one of them through a tuple.
  function TupleCycle(): Objects {
    map[
      1 := Object(Composite(Array, [Composite(Tuple, [Handle(2)])]), None, true),
      2 := Object(Composite(Array, [Handle(1)]), None, true)
    ]
  }

  /** Such a cycle is missed. */
  lemma TupleCycleIsMissed()
    ensures !Followed(TupleCycle())
  {
    var heap := TupleCycle();
    var parts := heap[1].value.parts;
    HandlesOfPart(parts, 0);
    HandlesOfPart([Handle(2)], 0);
    HandlesOfPart([Handle(1)], 0);
    assert Refers(heap, 1, 2) && Refers(heap, 2, 1);
    EdgeHolds(heap, 2, 1);
    assert !Leads(heap, 1, 2) by {
      assert forall x :: !PointsTo(heap, 1, x);
      LeadsNowhere(heap, 1, 2);
    }
  }

  lemma LeadsNowhere(heap: Objects, a: nat, b: nat)
    requires a != b && forall x :: !PointsTo(heap, a, x)
    ensures !Leads(heap, a, b)
  {
    hide PointsTo;
    forall p | p != [] && p[0] == a && p[|p| - 1] == b
      ensures !IsChain(heap, a, b, p)
    {
      assert !PointsTo(heap, p[0], p[0 + 1]);
    }
  }

  // An array that holds itself.
  function SelfHolder(): Objects {
    map[1 := Object(Composite(Array, [Handle(1)]), None, true)]
  }

  /** An object that holds itself is followed and is a cycle, but in no report. */
  lemma SelfHolderIsUnreported(cycles: seq<CycleInfo>)
    requires Complete(SelfHolder(), cycles)
    ensures PointsTo(SelfHolder(), 1, 1) && Followed(SelfHolder()) && cycles == []
  {
    hide Leads, Holds;
    assert Handle(1) in Parts(SelfHolder()[1].value);
    forall nodes
      ensures !IsCycle(SelfHolder(), nodes)
    {
      if IsCycle(SelfHolder(), nodes) {
        TwoAlive(SelfHolder(), nodes);
      }
    }
    assert cycles != [] ==> Described(SelfHolder(), cycles[0]);
  }

  lemma TwoAlive(heap: Objects, nodes: seq<nat>)
    requires IsCycle(heap, nodes)
    ensures exists x, y :: x != y && Alive(heap, x) && Alive(heap, y)
  {
    hide Leads;
    assert nodes[0] in nodes && nodes[1] in nodes;
  }

  // ----- Which handles are followed -----

  /** One object points at another when both live and the one is an array, a struct or an enum with
      a handle to the other among its parts. */
  lemma PointsToByParts(heap: Objects, a: nat, b: nat)
    ensures PointsTo(heap, a, b) <==>
      && a in heap && heap[a].alive && b in heap && heap[b].alive
      && heap[a].value.Composite?
      && (heap[a].value.shape.Array? || heap[a].value.shape.Struct? || heap[a].value.shape.Enum?)
      && exists k :: 0 <= k < |heap[a].value.parts| && heap[a].value.parts[k] == Handle(b)
  {
  }

  // A handle to another live object is a part of the array, struct or enum that is the object.
  ghost predicate DirectlyHeld(heap: Objects) {
    forall a, b, path | Alive(heap, a) && Alive(heap, b) && a != b && IsAt(heap[a].value, path, Handle(b)) ::
      |path| == 1 && (heap[a].value.shape.Array? || heap[a].value.shape.Struct? || heap[a].value.shape.Enum?)
  }

  lemma DirectIsFollowed(heap: Objects, a: nat, b: nat)
    requires DirectlyHeld(heap) && Refers(heap, a, b) && a != b
    ensures PointsTo(heap, a, b)
  {
    HandlesByPaths(heap[a].value, b);
    var path :| IsAt(heap[a].value, path, Handle(b));
    assert path[1..] == [];
    assert IsAt(heap[a].value.parts[path[0]], [], Handle(b));
    PointsToByParts(heap, a, b);
  }

  /** Where all handles between different objects are direct parts of arrays, structs and enums, the
      report covers every cycle of them. */
  lemma DirectIsReported(heap: Objects, cycles: seq<CycleInfo>)
    requires Complete(heap, cycles) && DirectlyHeld(heap)
    ensures Followed(heap) && ReportsAll(heap, cycles)
  {
    hide Complete, DirectlyHeld, PointsTo, Refers, Holds;
    forall a, b | Refers(heap, a, b) && a != b && Holds(heap, b, a)
      ensures Leads(heap, a, b)
    {
      DirectIsFollowed(heap, a, b);
      assert IsChain(heap, a, b, [a, b]);
    }
    ReportsAllExactlyWhenFollowed(heap, cycles);
  }

  // Two list nodes, structs or variants of an enum, that hold each other as their one field.
  function LinkedPair(shape: Shape): Objects {
    map[
      1 := Object(Composite(shape, [Handle(2)]), None, true),
      2 := Object(Composite(shape, [Handle(1)]), None, true)
    ]
  }

  /** Such a cycle is reported. */
  lemma LinkedPairIsReported(shape: Shape, cycles: seq<CycleInfo>)
    requires shape.Array? || shape.Struct? || shape.Enum?
    requires Complete(LinkedPair(shape), cycles)
    ensures Together(cycles, 1, 2)
  {
    hide Complete, Together;
    var heap := LinkedPair(shape);
    PointsToByParts(heap, 1, 2);
    PointsToByParts(heap, 2, 1);
    assert IsChain(heap, 1, 2, [1, 2]) && IsChain(heap, 2, 1, [2, 1]);
    CompleteTogether(heap, cycles, 1, 2);
  }
}
