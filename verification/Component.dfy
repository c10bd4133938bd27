/** Components: bindings and view, the references an expression makes, the dependency graph
    built from them, and the setters generated for the states. */
module Component {
  import opened Names
  import opened Finite
  import opened Graphs
  import opened Reactivity
  import Tarjan

  datatype Qualifier = State | Prop | Memo | Ref

  /** Node stands for every operator, call, access, literal list and so on: its value is
      some function of its parts' values. EnumInit is apart: its arguments are not looked
      at when references are collected. */
  datatype Expr =
    | Literal(value: int)
    | Variable(name: string)
    | Node(op: string, parts: seq<Expr>)
    | EnumInit(variant: string, values: seq<Expr>)

  datatype Binding = Binding(qualifier: Qualifier, name: string, value: Option<Expr>)

  /** A dynamic attribute named `on:` something is an event handler too. */
  datatype AttrValue = Static(text: string) | Dynamic(shown: Expr) | EventHandler(handler: Expr) | Flag

  datatype Attr = Attr(name: string, value: AttrValue)

  /** Element: rendered, children and all. Block: a conditional, loop, slot or child component,
      whose references count but which renders nothing of its own here. */
  datatype TemplateNode =
    | Text(text: string)
    | TExpr(expr: Expr)
    | Element(attrs: seq<Attr>, children: seq<TemplateNode>)
    | Block(heads: seq<Expr>, inner: seq<TemplateNode>)

  datatype Component = Component(name: string, bindings: seq<Binding>, view: seq<TemplateNode>)

  // ----- References -----

  function ExprRefs(e: Expr): seq<string>
    decreases e, 1
  {
    match e
    case Literal(_) => []
    case Variable(x) => [x]
    case Node(_, parts) => ExprsRefs(parts)
    case EnumInit(_, _) => []
  }

  function ExprsRefs(es: seq<Expr>): seq<string>
    decreases es, 0
  {
    if es == [] then [] else ExprRefs(es[0]) + ExprsRefs(es[1..])
  }

  function TemplateRefs(nodes: seq<TemplateNode>): seq<string>
    decreases nodes, 0
  {
    if nodes == [] then [] else NodeRefs(nodes[0]) + TemplateRefs(nodes[1..])
  }

  function NodeRefs(n: TemplateNode): seq<string>
    decreases n, 1
  {
    match n
    case Text(_) => []
    case TExpr(e) => ExprRefs(e)
    case Element(attrs, children) => AttrRefs(attrs) + TemplateRefs(children)
    case Block(heads, inner) => ExprsRefs(heads) + TemplateRefs(inner)
  }

  function AttrRefs(attrs: seq<Attr>): seq<string> {
    if attrs == [] then []
    else
      (match attrs[0].value
       case Dynamic(e) => ExprRefs(e)
       case EventHandler(e) => ExprRefs(e)
       case _ => []) + AttrRefs(attrs[1..])
  }

  // The bindings shown by named text nodes, in document order.
  function TextNodes(nodes: seq<TemplateNode>, names: set<string>): seq<string>
    decreases nodes, 0
  {
    if nodes == [] then [] else TextNodesOf(nodes[0], names) + TextNodes(nodes[1..], names)
  }

  function TextNodesOf(n: TemplateNode, names: set<string>): seq<string>
    decreases n, 1
  {
    match n
    case TExpr(Variable(x)) => if x in names then [x] else []
    case Element(_, children) => TextNodes(children, names)
    case _ => []
  }

  lemma {:induction false} TextNodesAreBindings(nodes: seq<TemplateNode>, names: set<string>)
    ensures forall x | x in TextNodes(nodes, names) :: x in names
    decreases nodes, 0
  {
    if nodes != [] {
      match nodes[0] {
        case Element(_, children) => TextNodesAreBindings(children, names);
        case _ =>
      }
      TextNodesAreBindings(nodes[1..], names);
    }
  }

  // ----- The dependency graph of a component -----

  // Binding names are declared once, and no name is spelled like a view node.
  ghost predicate WellNamed(c: Component) {
    && (forall i, j | 0 <= i < j < |c.bindings| :: c.bindings[i].name != c.bindings[j].name)
    && (forall i | 0 <= i < |c.bindings| :: !("view:" <= c.bindings[i].name))
    && (forall i, x | 0 <= i < |c.bindings| && c.bindings[i].value.Some? && x in ExprRefs(c.bindings[i].value.value) ::
      !("view:" <= x))
    && (forall x | x in TemplateRefs(c.view) :: !("view:" <= x))
  }

  function BindingNames(c: Component): set<string> {
    set i | 0 <= i < |c.bindings| :: c.bindings[i].name
  }

  function KindOf(q: Qualifier): NodeKind {
    match q
    case State => Source
    case Prop => Source
    case Memo => Derived
    case Ref => Source
  }

  // Memo i reads binding j, as far as reference collection sees.
  ghost predicate Reads(c: Component, i: nat, j: nat) {
    && i < |c.bindings| && j < |c.bindings|
    && c.bindings[i].qualifier == Memo && c.bindings[i].value.Some?
    && c.bindings[j].name in ExprRefs(c.bindings[i].value.value)
  }

  /** The bindings are the first nodes, in order; view nodes follow and nothing depends on
      them; a binding's edges are what it reads. */
  ghost predicate GraphOf(c: Component, nodes: seq<DepNode>, g: Graph) {
    && |c.bindings| <= |nodes| == |g| && Graphs.Valid(g)
    && (forall i | 0 <= i < |c.bindings| :: nodes[i] == DepNode(c.bindings[i].name, KindOf(c.bindings[i].qualifier)))
    && (forall i | |c.bindings| <= i < |nodes| :: nodes[i].kind == Sink && "view:" <= nodes[i].name)
    && (forall i: nat, j: nat | i < |c.bindings| :: Edge(g, i, j) <==> Reads(c, i, j))
    && (forall i: nat, j: nat | Edge(g, i, j) :: j < |c.bindings|)
  }

  // Nodes built so far: the first k bindings have their edges, the next one those of `refs`.
  ghost predicate PartGraph(c: Component, nodes: seq<DepNode>, g: Graph, k: nat, refs: seq<string>) {
    && |c.bindings| <= |nodes| == |g| && Graphs.Valid(g)
    && (forall i | 0 <= i < |c.bindings| :: nodes[i] == DepNode(c.bindings[i].name, KindOf(c.bindings[i].qualifier)))
    && (forall i | |c.bindings| <= i < |nodes| :: nodes[i].kind == Sink && "view:" <= nodes[i].name)
    && (forall i: nat, j: nat | i < |c.bindings| ::
          Edge(g, i, j) <==> (i < k && Reads(c, i, j)) || (i == k && j < |c.bindings| && c.bindings[j].name in refs))
    && (forall i: nat, j: nat | Edge(g, i, j) :: j < |c.bindings|)
  }

  // The names of a list that are bindings, in order.
  function BindingsAmong(names: set<string>, refs: seq<string>): seq<string> {
    if refs == [] then []
    else
      var x := refs[|refs| - 1];
      BindingsAmong(names, refs[..|refs| - 1]) + (if x in names then [x] else [])
  }

  // Behind the bindings comes one view node for each binding shown, with one edge, to it.
  ghost predicate SinksAre(c: Component, nodes: seq<DepNode>, g: Graph, shown: seq<string>) {
    && |nodes| == |g| == |c.bindings| + |shown|
    && (forall i | |c.bindings| <= i < |nodes| :: nodes[i] == DepNode("view:" + shown[i - |c.bindings|], Sink))
    && (forall i: nat, j: nat | |c.bindings| <= i < |nodes| ::
          Edge(g, i, j) <==> j < |c.bindings| && c.bindings[j].name == shown[i - |c.bindings|])
  }

  // The memos are the derived nodes, everything else declared is a source.
  ghost predicate KindsAre(c: Component, nodes: seq<DepNode>) {
    && |c.bindings| <= |nodes|
    && (forall i | 0 <= i < |c.bindings| :: nodes[i].kind == Derived <==> c.bindings[i].qualifier == Memo)
    && (forall i | 0 <= i < |c.bindings| :: nodes[i].kind == Source <==> c.bindings[i].qualifier in {State, Prop, Ref})
  }

  /** One view node for each mention of a binding in the view, in document order. */
  ghost predicate SinksOf(c: Component, nodes: seq<DepNode>, g: Graph) {
    SinksAre(c, nodes, g, BindingsAmong(BindingNames(c), TemplateRefs(c.view)))
  }

  lemma EdgeAdded(g: Graph, src: nat, dst: nat, i: nat, j: nat)
    requires src < |g|
    ensures Edge(g[src := if dst in g[src] then g[src] else g[src] + [dst]], i, j) <==>
      Edge(g, i, j) || (i == src && j == dst)
  {
  }

  // A name that is not a view name is found at its binding or nowhere.
  lemma FoundIsBinding(c: Component, nodes: seq<DepNode>, g: Graph, k: nat, refs: seq<string>, name: string,
      id: Option<nat>)
    requires WellNamed(c) && PartGraph(c, nodes, g, k, refs) && !("view:" <= name)
    requires id.Some? ==> id.value < |nodes| && nodes[id.value].name == name
    requires forall i | 0 <= i < |nodes| && (id.None? || i < id.value) :: nodes[i].name != name
    ensures id.Some? ==> id.value < |c.bindings| && c.bindings[id.value].name == name
    ensures id.None? ==> forall j | 0 <= j < |c.bindings| :: c.bindings[j].name != name
    ensures forall j | 0 <= j < |c.bindings| && c.bindings[j].name == name :: id == Some(j)
  {
    hide Edge, Reads;
    if id.Some? {
      assert id.value < |c.bindings|;
    }
    forall j | 0 <= j < |c.bindings|
      ensures nodes[j].name == c.bindings[j].name
    {
    }
  }

  /** The analysis pass: builds the graph and reports, component by component, the derived
      nodes that share a dependency cycle with another derived node. */
  method Analyse(c: Component) returns (graph: DepGraph, cycles: seq<seq<nat>>)
    requires WellNamed(c)
    ensures fresh(graph) && graph.Valid() && GraphOf(c, graph.nodes, graph.edges)
    ensures SinksOf(c, graph.nodes, graph.edges) && KindsAre(c, graph.nodes)
    ensures CyclesOf(graph.nodes, graph.edges, cycles)
  {
    hide CyclesOf, SinksOf, WellNamed, CyclesFrom, DerivedIn, Tarjan.Components, Tarjan.Reported, Tarjan.ReportsExactly;
    graph := BuildNodes(c);
    AddSinks(c, graph);
    AddMemoEdges(c, graph);
    ghost var found;
    var sccs;
    sccs, found := Tarjan.Run(graph.edges, 1);
    cycles := ReportCycles(graph.nodes, sccs);
    CyclesEnd(graph.nodes, graph.edges, sccs, found, cycles);
  }

  method ReportCycles(nodes: seq<DepNode>, sccs: seq<seq<nat>>) returns (cycles: seq<seq<nat>>)
    ensures CyclesFrom(nodes, sccs, cycles)
  {
    hide CyclesFrom, DerivedIn;
    cycles := [];
    assert sccs[..0] == [];
    CyclesStart(nodes);
    for k := 0 to |sccs|
      invariant CyclesFrom(nodes, sccs[..k], cycles)
    {
      var derived := DerivedIn(nodes, sccs[k]);
      CyclesStep(nodes, sccs, k, cycles);
      if |sccs[k]| > 1 && |derived| > 1 {
        cycles := cycles + [derived];
      }
    }
    assert sccs[..|sccs|] == sccs;
  }

  // ----- The cycle report -----

  // The derived members of a list of nodes, in order.
  function DerivedIn(nodes: seq<DepNode>, c: seq<nat>): seq<nat> {
    if c == [] then []
    else
      var last := c[|c| - 1];
      DerivedIn(nodes, c[..|c| - 1]) + (if last < |nodes| && nodes[last].kind == Derived then [last] else [])
  }

  lemma {:induction false} DerivedMembers(nodes: seq<DepNode>, c: seq<nat>)
    ensures forall x: nat :: x in DerivedIn(nodes, c) <==> x in c && x < |nodes| && nodes[x].kind == Derived
    ensures Distinct(c) ==> Distinct(DerivedIn(nodes, c))
    ensures |DerivedIn(nodes, c)| <= |c|
  {
    if c != [] {
      DerivedMembers(nodes, c[..|c| - 1]);
      assert c == c[..|c| - 1] + [c[|c| - 1]];
    }
  }

  ghost predicate CyclesFrom(nodes: seq<DepNode>, sccs: seq<seq<nat>>, cycles: seq<seq<nat>>) {
    forall d :: d in cycles <==> exists k {:trigger sccs[k]} ::
      0 <= k < |sccs| && |sccs[k]| > 1 && d == DerivedIn(nodes, sccs[k]) && |d| > 1
  }

  lemma CyclesStart(nodes: seq<DepNode>)
    ensures CyclesFrom(nodes, [], [])
  {
  }

  lemma CyclesStep(nodes: seq<DepNode>, sccs: seq<seq<nat>>, k: nat, cycles: seq<seq<nat>>)
    requires k < |sccs| && CyclesFrom(nodes, sccs[..k], cycles)
    ensures var d := DerivedIn(nodes, sccs[k]);
      CyclesFrom(nodes, sccs[..k + 1], if |sccs[k]| > 1 && |d| > 1 then cycles + [d] else cycles)
  {
    hide DerivedIn;
    var before, after := sccs[..k], sccs[..k + 1];
    assert after == before + [sccs[k]];
    var d0 := DerivedIn(nodes, sccs[k]);
    var cycles' := if |sccs[k]| > 1 && |d0| > 1 then cycles + [d0] else cycles;
    forall d | d in cycles'
      ensures exists i {:trigger after[i]} ::
        0 <= i < |after| && |after[i]| > 1 && d == DerivedIn(nodes, after[i]) && |d| > 1
    {
      if d in cycles {
        var i :| 0 <= i < |before| && |before[i]| > 1 && d == DerivedIn(nodes, before[i]) && |d| > 1;
        assert after[i] == before[i];
      } else {
        assert after[k] == sccs[k];
      }
    }
    forall i | 0 <= i < |after| && |after[i]| > 1 && |DerivedIn(nodes, after[i])| > 1
      ensures DerivedIn(nodes, after[i]) in cycles'
    {
      if i < k {
        assert before[i] == after[i];
      }
    }
  }

  // u and v are different derived nodes that depend on each other.
  ghost predicate DerivedCycle(nodes: seq<DepNode>, g: Graph, u: nat, v: nat) {
    u != v && u in DerivedSet(nodes) && v in DerivedSet(nodes) && Reach(g, u, v) && Reach(g, v, u)
  }

  /** Two derived nodes are reported together exactly when each depends on the other. */
  ghost predicate CyclesOf(nodes: seq<DepNode>, g: Graph, cycles: seq<seq<nat>>) {
    && (forall d, u, v: nat | d in cycles && u in d && v in d && u != v :: DerivedCycle(nodes, g, u, v))
    && (forall u: nat, v: nat | DerivedCycle(nodes, g, u, v) :: exists d :: d in cycles && u in d && v in d)
    && (forall d | d in cycles :: |d| > 1 && Distinct(d))
  }

  /** A memo is named in a report exactly when it and another memo depend on each other; one
      that only reads itself, though it is a cycle of one, is in none. */
  lemma ReportedExactlyWithAnother(nodes: seq<DepNode>, g: Graph, cycles: seq<seq<nat>>, v: nat)
    requires CyclesOf(nodes, g, cycles)
    ensures (exists d :: d in cycles && v in d) <==> exists u: nat :: DerivedCycle(nodes, g, u, v)
  {
    hide DerivedCycle;
    if d :| d in cycles && v in d {
      var u := if d[0] == v then d[1] else d[0];
      assert u in d && u != v;
      assert DerivedCycle(nodes, g, u, v);
    }
  }

  /** A memo that reads itself: a cycle, but in no report. */
  lemma SelfReaderIsUnreported(nodes: seq<DepNode>, g: Graph, cycles: seq<seq<nat>>)
    requires GraphOf(SelfReader(), nodes, g) && CyclesOf(nodes, g, cycles)
    ensures WellNamed(SelfReader()) && 0 in DerivedSet(nodes) && ReachPlus(g, 0, 0) && forall d | d in cycles :: 0 !in d
  {
    hide Reach;
    assert Reads(SelfReader(), 0, 0);
    assert Edge(g, 0, 0);
    ReachRefl(g, 0);
    ReportedExactlyWithAnother(nodes, g, cycles, 0);
    forall u: nat
      ensures !DerivedCycle(nodes, g, u, 0)
    {
      assert nodes[0].kind == Derived;
    }
  }

  // memo m = m
  function SelfReader(): Component {
    Component("loop", [Binding(Memo, "m", Some(Variable("m")))], [])
  }

  lemma CyclesEnd(nodes: seq<DepNode>, g: Graph, sccs: seq<seq<nat>>, found: seq<seq<nat>>, cycles: seq<seq<nat>>)
    requires |nodes| == |g| && Tarjan.Components(g, found) && sccs == Tarjan.Reported(found, 1)
    requires CyclesFrom(nodes, sccs, cycles)
    ensures CyclesOf(nodes, g, cycles)
  {
    hide Reach, Tarjan.Reported, Tarjan.Components, CyclesFrom, DerivedIn, DerivedCycle;
    forall d | d in cycles
      ensures |d| > 1 && Distinct(d)
      ensures forall u, v: nat | u in d && v in d && u != v :: DerivedCycle(nodes, g, u, v)
    {
      var i := CycleSource(nodes, g, sccs, found, cycles, d);
      DerivedMembers(nodes, found[i]);
      FoundIsDistinct(g, found, i);
      forall u, v: nat | u in d && v in d && u != v
        ensures DerivedCycle(nodes, g, u, v)
      {
        SameList(nodes, g, found, i, u, v);
      }
    }
    forall u: nat, v: nat | DerivedCycle(nodes, g, u, v)
      ensures exists d :: d in cycles && u in d && v in d
    {
      var i := SharedList(nodes, g, found, u, v);
      var d := DerivedIn(nodes, found[i]);
      DerivedMembers(nodes, found[i]);
      TwoMembers(d, u, v);
      CycleListed(nodes, sccs, found, cycles, i);
      assert d in cycles;
    }
  }

  lemma CycleSource(nodes: seq<DepNode>, g: Graph, sccs: seq<seq<nat>>, found: seq<seq<nat>>, cycles: seq<seq<nat>>,
      d: seq<nat>)
    returns (i: nat)
    requires sccs == Tarjan.Reported(found, 1) && CyclesFrom(nodes, sccs, cycles) && d in cycles
    ensures i < |found| && d == DerivedIn(nodes, found[i]) && |d| > 1
  {
    hide DerivedIn, Tarjan.Reported;
    var k :| 0 <= k < |sccs| && |sccs[k]| > 1 && d == DerivedIn(nodes, sccs[k]) && |d| > 1;
    Tarjan.ReportedMembers(found, 1, sccs[k]);
    assert sccs[k] in sccs;
    i :| 0 <= i < |found| && found[i] == sccs[k];
  }

  lemma CycleListed(nodes: seq<DepNode>, sccs: seq<seq<nat>>, found: seq<seq<nat>>, cycles: seq<seq<nat>>, i: nat)
    requires sccs == Tarjan.Reported(found, 1) && CyclesFrom(nodes, sccs, cycles)
    requires i < |found| && |DerivedIn(nodes, found[i])| > 1
    ensures DerivedIn(nodes, found[i]) in cycles
  {
    DerivedMembers(nodes, found[i]);
    hide DerivedIn, Tarjan.Reported;
    Tarjan.ReportedMembers(found, 1, found[i]);
    assert found[i] in found;
    var k :| 0 <= k < |sccs| && sccs[k] == found[i];
  }

  lemma SameList(nodes: seq<DepNode>, g: Graph, found: seq<seq<nat>>, i: nat, u: nat, v: nat)
    requires |nodes| == |g| && Tarjan.Components(g, found) && i < |found| && u != v
    requires u in DerivedIn(nodes, found[i]) && v in DerivedIn(nodes, found[i])
    ensures DerivedCycle(nodes, g, u, v)
  {
    hide Reach;
    DerivedMembers(nodes, found[i]);
    Tarjan.ComponentsExact(g, found);
  }

  lemma SharedList(nodes: seq<DepNode>, g: Graph, found: seq<seq<nat>>, u: nat, v: nat) returns (i: nat)
    requires |nodes| == |g| && Tarjan.Components(g, found) && DerivedCycle(nodes, g, u, v)
    ensures i < |found| && u in found[i] && v in found[i]
    ensures u < |nodes| && v < |nodes| && nodes[u].kind == Derived && nodes[v].kind == Derived && u != v
  {
    hide Reach, Tarjan.FoundGood;
    Tarjan.ComponentsExact(g, found);
    assert Tarjan.Listed(found, u);
    i :| 0 <= i < |found| && u in found[i];
  }

  lemma FoundIsDistinct(g: Graph, found: seq<seq<nat>>, i: nat)
    requires Tarjan.Components(g, found) && i < |found|
    ensures Distinct(found[i])
  {
    hide IsScc;
    assert Distinct(found[i]);
  }

  lemma TwoMembers(d: seq<nat>, u: nat, v: nat)
    requires u in d && v in d && u != v
    ensures |d| > 1
  {
  }

  method BuildNodes(c: Component) returns (graph: DepGraph)
    ensures fresh(graph) && graph.Valid() && PartGraph(c, graph.nodes, graph.edges, 0, [])
    ensures SinksAre(c, graph.nodes, graph.edges, [])
  {
    graph := new DepGraph();
    for k := 0 to |c.bindings|
      invariant fresh(graph) && graph.Valid() && |graph.nodes| == k
      invariant forall i | 0 <= i < k :: graph.nodes[i] == DepNode(c.bindings[i].name, KindOf(c.bindings[i].qualifier))
      invariant forall i | 0 <= i < k :: graph.edges[i] == []
    {
      var _ := graph.AddNode(c.bindings[k].name, KindOf(c.bindings[k].qualifier));
    }
  }

  method AddSinks(c: Component, graph: DepGraph)
    requires WellNamed(c) && graph.Valid() && PartGraph(c, graph.nodes, graph.edges, 0, [])
    requires SinksAre(c, graph.nodes, graph.edges, [])
    modifies graph
    ensures graph.Valid() && PartGraph(c, graph.nodes, graph.edges, 0, []) && SinksOf(c, graph.nodes, graph.edges)
  {
    hide WellNamed, PartGraph, SinksAre, GraphOf;
    var refs := TemplateRefs(c.view);
    assert refs[..0] == [];
    for k := 0 to |refs|
      invariant graph.Valid() && PartGraph(c, graph.nodes, graph.edges, 0, [])
      invariant SinksAre(c, graph.nodes, graph.edges, BindingsAmong(BindingNames(c), refs[..k]))
    {
      ghost var shown := BindingsAmong(BindingNames(c), refs[..k]);
      assert refs[..k + 1][..k] == refs[..k];
      var known := graph.NodeByName(refs[k]);
      RefIsPlain(c, refs[k]);
      FoundIsBinding(c, graph.nodes, graph.edges, 0, [], refs[k], known);
      if known.None? {
        assert refs[k] !in BindingNames(c);
        assert BindingsAmong(BindingNames(c), refs[..k + 1]) == shown;
        continue;
      }
      assert refs[k] in BindingNames(c);
      ghost var nodes, edges := graph.nodes, graph.edges;
      var sink := graph.AddNode("view:" + refs[k], Sink);
      SinkAdded(c, nodes, edges, "view:" + refs[k]);
      var src := graph.NodeByName(refs[k]);
      FoundIsBinding(c, graph.nodes, graph.edges, 0, [], refs[k], src);
      assert src == known && c.bindings[known.value].name == refs[k];
      if src.Some? {
        InBounds(c, nodes, edges, 0, []);
        graph.AddEdge(sink, src.value);
        SinkEdgeAdded(c, graph.nodes, edges + [[]], sink, src.value);
        SinkShown(c, nodes, edges, shown, refs[k], src.value);
        assert (edges + [[]])[sink] == [];
        assert BindingsAmong(BindingNames(c), refs[..k + 1]) == shown + [refs[k]];
      }
    }
    assert refs[..|refs|] == refs;
  }

  lemma SinkShown(c: Component, nodes: seq<DepNode>, g: Graph, shown: seq<string>, x: string, src: nat)
    requires SinksAre(c, nodes, g, shown)
    requires forall j | 0 <= j < |c.bindings| :: c.bindings[j].name == x <==> j == src
    requires src < |c.bindings|
    ensures SinksAre(c, nodes + [DepNode("view:" + x, Sink)], (g + [[]])[|g| := [] + [src]], shown + [x])
  {
    var g', shown' := (g + [[]])[|g| := [] + [src]], shown + [x];
    forall i: nat, j: nat | |c.bindings| <= i < |g'|
      ensures Edge(g', i, j) <==> j < |c.bindings| && c.bindings[j].name == shown'[i - |c.bindings|]
    {
      if i == |g| {
        assert g'[i] == [src];
      } else {
        assert g'[i] == g[i] && shown'[i - |c.bindings|] == shown[i - |c.bindings|];
        assert Edge(g', i, j) <==> Edge(g, i, j);
      }
    }
  }

  // Edges of bindings do not touch the view nodes.
  lemma SinksKept(c: Component, nodes: seq<DepNode>, g: Graph, shown: seq<string>, k: nat, row: seq<nat>)
    requires SinksAre(c, nodes, g, shown) && k < |c.bindings|
    ensures SinksAre(c, nodes, g[k := row], shown)
  {
    var g' := g[k := row];
    forall i: nat, j: nat | |c.bindings| <= i
      ensures Edge(g', i, j) <==> Edge(g, i, j)
    {
    }
  }

  lemma RefIsPlain(c: Component, x: string)
    requires WellNamed(c) && x in TemplateRefs(c.view)
    ensures !("view:" <= x)
  {
  }

  lemma SinkAdded(c: Component, nodes: seq<DepNode>, g: Graph, name: string)
    requires PartGraph(c, nodes, g, 0, []) && "view:" <= name
    ensures PartGraph(c, nodes + [DepNode(name, Sink)], g + [[]], 0, [])
  {
    hide Reads;
    var g' := g + [[]];
    forall i: nat, j: nat
      ensures Edge(g', i, j) <==> Edge(g, i, j)
    {
    }
  }

  lemma SinkEdgeAdded(c: Component, nodes: seq<DepNode>, g: Graph, sink: nat, src: nat)
    requires PartGraph(c, nodes, g, 0, []) && |c.bindings| <= sink < |nodes| && src < |c.bindings|
    ensures PartGraph(c, nodes, g[sink := if src in g[sink] then g[sink] else g[sink] + [src]], 0, [])
  {
    hide Reads;
    var g' := g[sink := if src in g[sink] then g[sink] else g[sink] + [src]];
    forall i: nat, j: nat
      ensures Edge(g', i, j) <==> Edge(g, i, j) || (i == sink && j == src)
    {
      EdgeAdded(g, sink, src, i, j);
    }
    hide Edge;
    assert Graphs.Valid(g');
  }

  method AddMemoEdges(c: Component, graph: DepGraph)
    requires WellNamed(c) && graph.Valid() && PartGraph(c, graph.nodes, graph.edges, 0, [])
    requires SinksOf(c, graph.nodes, graph.edges)
    modifies graph
    ensures graph.Valid() && GraphOf(c, graph.nodes, graph.edges) && SinksOf(c, graph.nodes, graph.edges)
  {
    hide WellNamed, PartGraph, GraphOf, SinksAre;
    ghost var shown := BindingsAmong(BindingNames(c), TemplateRefs(c.view));
    for k := 0 to |c.bindings|
      invariant graph.Valid() && PartGraph(c, graph.nodes, graph.edges, k, [])
      invariant SinksAre(c, graph.nodes, graph.edges, shown)
    {
      var b := c.bindings[k];
      if b.qualifier != Memo {
        NextBinding(c, graph.nodes, graph.edges, k, []);
        continue;
      }
      var id := graph.NodeByName(b.name);
      PlainName(c, k);
      FoundIsBinding(c, graph.nodes, graph.edges, k, [], b.name, id);
      if b.value.Some? {
        var refs := ExprRefs(b.value.value);
        assert refs[..0] == [];
        for m := 0 to |refs|
          invariant graph.Valid() && PartGraph(c, graph.nodes, graph.edges, k, refs[..m])
          invariant SinksAre(c, graph.nodes, graph.edges, shown)
        {
          var dep := graph.NodeByName(refs[m]);
          PlainRef(c, k, refs[m]);
          FoundIsBinding(c, graph.nodes, graph.edges, k, refs[..m], refs[m], dep);
          assert refs[..m + 1] == refs[..m] + [refs[m]];
          ghost var before := graph.edges;
          if dep.Some? {
            InBounds(c, graph.nodes, graph.edges, k, refs[..m]);
            graph.AddEdge(id.value, dep.value);
            SinksKept(c, graph.nodes, before, shown, k, graph.edges[k]);
          }
          RefHandled(c, graph.nodes, before, k, refs[..m], refs[m], dep);
        }
        assert refs[..|refs|] == refs;
        NextBinding(c, graph.nodes, graph.edges, k, refs);
      } else {
        NextBinding(c, graph.nodes, graph.edges, k, []);
      }
    }
    AllBindings(c, graph.nodes, graph.edges);
  }

  lemma PlainName(c: Component, k: nat)
    requires WellNamed(c) && k < |c.bindings|
    ensures !("view:" <= c.bindings[k].name)
  {
  }

  lemma PlainRef(c: Component, k: nat, x: string)
    requires WellNamed(c) && k < |c.bindings| && c.bindings[k].value.Some? && x in ExprRefs(c.bindings[k].value.value)
    ensures !("view:" <= x)
  {
  }

  lemma InBounds(c: Component, nodes: seq<DepNode>, g: Graph, k: nat, refs: seq<string>)
    requires PartGraph(c, nodes, g, k, refs)
    ensures |c.bindings| <= |nodes| == |g|
  {
  }

  lemma RefHandled(c: Component, nodes: seq<DepNode>, g: Graph, k: nat, refs: seq<string>, x: string, dep: Option<nat>)
    requires PartGraph(c, nodes, g, k, refs) && k < |c.bindings|
    requires dep.Some? ==> dep.value < |c.bindings| && c.bindings[dep.value].name == x
    requires forall j | 0 <= j < |c.bindings| && c.bindings[j].name == x :: dep == Some(j)
    ensures var g' := if dep.Some? then g[k := if dep.value in g[k] then g[k] else g[k] + [dep.value]] else g;
      PartGraph(c, nodes, g', k, refs + [x])
  {
    hide Reads;
    if dep.Some? {
      var g' := g[k := if dep.value in g[k] then g[k] else g[k] + [dep.value]];
      forall i: nat, j: nat
        ensures Edge(g', i, j) <==> Edge(g, i, j) || (i == k && j == dep.value)
      {
        EdgeAdded(g, k, dep.value, i, j);
      }
      hide Edge;
      assert Graphs.Valid(g');
    }
  }

  lemma NextBinding(c: Component, nodes: seq<DepNode>, g: Graph, k: nat, refs: seq<string>)
    requires PartGraph(c, nodes, g, k, refs) && k < |c.bindings|
    requires refs == if c.bindings[k].qualifier == Memo && c.bindings[k].value.Some?
      then ExprRefs(c.bindings[k].value.value) else []
    ensures PartGraph(c, nodes, g, k + 1, [])
  {
    hide Edge;
  }

  lemma AllBindings(c: Component, nodes: seq<DepNode>, g: Graph)
    requires PartGraph(c, nodes, g, |c.bindings|, [])
    ensures GraphOf(c, nodes, g)
  {
    hide Edge;
  }
}
