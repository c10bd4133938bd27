/** What a view renders, told by the path to each node: its texts in document order, its
    attributes, and whether they show the current values after a flush. */
module Rendered {
  import opened Names
  import opened Graphs
  import opened Reactivity
  import opened Component
  import opened ReactiveUpdate
  import opened ReactiveCoverage
  import opened ReactiveView
  import opened References

  /** The node at a path of child positions; `inBlocks` says whether the path may lead into a block,
      which renders nothing of its own. */
  function NodeAt(nodes: seq<TemplateNode>, path: seq<nat>, inBlocks: bool): Option<TemplateNode>
    decreases |path|
  {
    if path == [] || path[0] >= |nodes| then None
    else if |path| == 1 then Some(nodes[path[0]])
    else if nodes[path[0]].Element? then NodeAt(nodes[path[0]].children, path[1..], inBlocks)
    else if inBlocks && nodes[path[0]].Block? then NodeAt(nodes[path[0]].inner, path[1..], inBlocks)
    else None
  }

  // The expression is rendered as the text at the path.
  ghost predicate TextAt(nodes: seq<TemplateNode>, path: seq<nat>, e: Expr) {
    NodeAt(nodes, path, false) == Some(TExpr(e))
  }

  // The expression is the value of attribute i of the element at the path; event handlers show nothing.
  ghost predicate AttrAt(nodes: seq<TemplateNode>, path: seq<nat>, i: nat, e: Expr) {
    var n := NodeAt(nodes, path, false);
    n.Some? && n.value.Element? && i < |n.value.attrs| && n.value.attrs[i].value == Dynamic(e)
    && !("on:" <= n.value.attrs[i].name)
  }

  predicate IsBare(e: Expr, names: set<string>) {
    e.Variable? && e.name in names
  }

  // Document order.
  predicate Before(p: seq<nat>, q: seq<nat>) {
    if q == [] then false
    else if p == [] then true
    else p[0] < q[0] || (p[0] == q[0] && Before(p[1..], q[1..]))
  }

  lemma ChildAt(nodes: seq<TemplateNode>, k: nat, path: seq<nat>, inBlocks: bool)
    requires k < |nodes|
    ensures path == [] ==> NodeAt(nodes, [k] + path, inBlocks) == Some(nodes[k])
    ensures path != [] && nodes[k].Element?
      ==> NodeAt(nodes, [k] + path, inBlocks) == NodeAt(nodes[k].children, path, inBlocks)
    ensures path != [] && nodes[k].Block? && inBlocks
      ==> NodeAt(nodes, [k] + path, inBlocks) == NodeAt(nodes[k].inner, path, inBlocks)
  {
    assert ([k] + path)[1..] == path;
  }

  // ----- Named texts -----

  // The paths to the bare bindings among nodes k and later.
  function PlacesFrom(nodes: seq<TemplateNode>, k: nat, names: set<string>): seq<seq<nat>>
    requires k <= |nodes|
    decreases nodes, 0, |nodes| - k
  {
    if k == |nodes| then [] else PlacesOf(nodes[k], k, names) + PlacesFrom(nodes, k + 1, names)
  }

  function PlacesOf(n: TemplateNode, k: nat, names: set<string>): seq<seq<nat>>
    decreases n, 1, 0
  {
    match n
    case TExpr(e) => if IsBare(e, names) then [[k]] else []
    case Element(_, children) => Under(k, PlacesFrom(children, 0, names))
    case _ => []
  }

  function Under(k: nat, paths: seq<seq<nat>>): seq<seq<nat>> {
    seq(|paths|, i requires 0 <= i < |paths| => [k] + paths[i])
  }

  // The paths lead to the bindings, one each, in document order.
  ghost predicate Matched(nodes: seq<TemplateNode>, names: set<string>, places: seq<seq<nat>>, shown: seq<string>) {
    && |places| == |shown|
    && (forall t | 0 <= t < |places| :: shown[t] in names && TextAt(nodes, places[t], Variable(shown[t])))
    && (forall i, j | 0 <= i < j < |places| :: Before(places[i], places[j]))
  }

  // The paths that start with a number from k on, below n.
  ghost predicate Complete(nodes: seq<TemplateNode>, names: set<string>, places: seq<seq<nat>>, k: nat, n: nat) {
    && (forall p | p in places :: p != [] && k <= p[0] < n)
    && (forall p, e | TextAt(nodes, p, e) && IsBare(e, names) && k <= p[0] < n :: p in places)
  }

  lemma {:induction false} PlacesMatch(nodes: seq<TemplateNode>, k: nat, names: set<string>)
    requires k <= |nodes|
    ensures Matched(nodes, names, PlacesFrom(nodes, k, names), TextNodes(nodes[k..], names))
    ensures Complete(nodes, names, PlacesFrom(nodes, k, names), k, |nodes|)
    decreases nodes, 0, |nodes| - k
  {
    if k < |nodes| {
      hide TextAt;
      HeadMatches(nodes, k, names);
      PlacesMatch(nodes, k + 1, names);
      assert nodes[k..][0] == nodes[k] && nodes[k..][1..] == nodes[k + 1..];
      var head, tail := PlacesOf(nodes[k], k, names), PlacesFrom(nodes, k + 1, names);
      Joined(nodes, names, head, tail, TextNodesOf(nodes[k], names), TextNodes(nodes[k + 1..], names), k);
    }
  }

  lemma Joined(nodes: seq<TemplateNode>, names: set<string>, head: seq<seq<nat>>, tail: seq<seq<nat>>,
      shown: seq<string>, shown': seq<string>, k: nat)
    requires k < |nodes| && Matched(nodes, names, head, shown) && Complete(nodes, names, head, k, k + 1)
    requires Matched(nodes, names, tail, shown') && Complete(nodes, names, tail, k + 1, |nodes|)
    ensures Matched(nodes, names, head + tail, shown + shown') && Complete(nodes, names, head + tail, k, |nodes|)
  {
    hide TextAt;
    var all := head + tail;
    forall i, j | 0 <= i < j < |all|
      ensures Before(all[i], all[j])
    {
      if i < |head| <= j {
        assert head[i] in head && tail[j - |head|] in tail;
      }
    }
  }

  lemma {:induction false} HeadMatches(nodes: seq<TemplateNode>, k: nat, names: set<string>)
    requires k < |nodes|
    ensures Matched(nodes, names, PlacesOf(nodes[k], k, names), TextNodesOf(nodes[k], names))
    ensures Complete(nodes, names, PlacesOf(nodes[k], k, names), k, k + 1)
    decreases nodes[k], 1, 0
  {
    var places := PlacesOf(nodes[k], k, names);
    ChildAt(nodes, k, [], false);
    assert [k] + [] == [k];
    match nodes[k]
    case Element(_, children) =>
      PlacesMatch(children, 0, names);
      assert children[0..] == children;
      UnderMatched(nodes, k, names, PlacesFrom(children, 0, names), TextNodes(children, names));
    case _ =>
      forall p
        ensures NodeAt(nodes, p, false).Some? && p[0] == k ==> p == [k]
      {
        LeafPath(nodes, k, p);
      }
  }

  lemma LeafPath(nodes: seq<TemplateNode>, k: nat, p: seq<nat>)
    requires k < |nodes| && !nodes[k].Element?
    ensures NodeAt(nodes, p, false).Some? && p[0] == k ==> p == [k]
  {
  }

  lemma UnderMatched(nodes: seq<TemplateNode>, k: nat, names: set<string>, inner: seq<seq<nat>>, shown: seq<string>)
    requires k < |nodes| && nodes[k].Element?
    requires Matched(nodes[k].children, names, inner, shown)
      && Complete(nodes[k].children, names, inner, 0, |nodes[k].children|)
    ensures Matched(nodes, names, Under(k, inner), shown) && Complete(nodes, names, Under(k, inner), k, k + 1)
  {
    var places, children := Under(k, inner), nodes[k].children;
    forall t | 0 <= t < |places|
      ensures TextAt(nodes, places[t], Variable(shown[t]))
    {
      assert TextAt(children, inner[t], Variable(shown[t]));
      ChildAt(nodes, k, inner[t], false);
    }
    forall i, j | 0 <= i < j < |places|
      ensures Before(places[i], places[j])
    {
      assert places[i][1..] == inner[i] && places[j][1..] == inner[j];
    }
    forall p, e | TextAt(nodes, p, e) && IsBare(e, names) && k <= p[0] < k + 1
      ensures p in places
    {
      assert |p| > 1;
      assert TextAt(children, p[1..], e);
      var t :| 0 <= t < |inner| && inner[t] == p[1..];
      assert places[t] == [k] + p[1..] == p;
    }
  }

  // Where the named texts are.
  function Places(c: Component): seq<seq<nat>> {
    PlacesFrom(c.view, 0, BindingNames(c))
  }

  /** The named texts are the bare bindings rendered: one for each path to one, in document order,
      and it shows that binding. */
  lemma NamedTextsAreBareBindings(c: Component)
    ensures |Places(c)| == |Texts(c)|
    ensures forall t | 0 <= t < |Texts(c)| ::
      Texts(c)[t] in BindingNames(c) && TextAt(c.view, Places(c)[t], Variable(Texts(c)[t]))
    ensures forall i, j | 0 <= i < j < |Places(c)| :: Before(Places(c)[i], Places(c)[j])
    ensures forall path, e | TextAt(c.view, path, e) && IsBare(e, BindingNames(c)) :: path in Places(c)
  {
    hide TextAt;
    PlacesMatch(c.view, 0, BindingNames(c));
    assert c.view[0..] == c.view;
    forall path, e | TextAt(c.view, path, e) && IsBare(e, BindingNames(c))
      ensures path in Places(c)
    {
      PathStarts(c.view, path, e);
    }
  }

  lemma PathStarts(nodes: seq<TemplateNode>, path: seq<nat>, e: Expr)
    requires TextAt(nodes, path, e)
    ensures path != [] && path[0] < |nodes|
  {
  }

  // ----- What is written once -----

  // The expression is rendered, as a text that is no bare binding or as an attribute.
  ghost predicate RenderedOnce(nodes: seq<TemplateNode>, names: set<string>, e: Expr) {
    || (!IsBare(e, names) && exists path :: TextAt(nodes, path, e))
    || (exists path, i :: AttrAt(nodes, path, i, e))
  }

  lemma {:induction false} AttrsShown(attrs: seq<Attr>, e: Expr)
    ensures e in ShownAttrs(attrs)
      <==> exists i :: 0 <= i < |attrs| && attrs[i].value == Dynamic(e) && !("on:" <= attrs[i].name)
  {
    if attrs != [] {
      AttrsShown(attrs[1..], e);
      if i :| 0 <= i < |attrs| && attrs[i].value == Dynamic(e) && !("on:" <= attrs[i].name) {
        assert i == 0 || attrs[1..][i - 1] == attrs[i];
      }
    }
  }

  lemma {:induction false} OnceByPaths(nodes: seq<TemplateNode>, names: set<string>, e: Expr)
    ensures e in ShownOnce(nodes, names) <==> RenderedOnce(nodes, names, e)
    decreases nodes, 0
  {
    if nodes != [] {
      hide RenderedOnce;
      OnceInNode(nodes, names, e);
      OnceByPaths(nodes[1..], names, e);
      OnceSplit(nodes, names, e);
    } else {
      assert forall path :: NodeAt(nodes, path, false) == None;
    }
  }

  lemma {:induction false} OnceInNode(nodes: seq<TemplateNode>, names: set<string>, e: Expr)
    requires nodes != []
    ensures e in ShownOnceIn(nodes[0], names) <==> RenderedOnce([nodes[0]], names, e)
    decreases nodes[0], 1
  {
    var one := [nodes[0]];
    ChildAt(one, 0, [], false);
    assert [0] + [] == [0];
    match nodes[0]
    case Element(attrs, children) =>
      AttrsShown(attrs, e);
      OnceByPaths(children, names, e);
      OnceInElement(one, names, e);
    case TExpr(shown) =>
      assert TextAt(one, [0], shown);
      assert forall path | NodeAt(one, path, false).Some? :: |path| == 1;
    case _ =>
      assert forall path | NodeAt(one, path, false).Some? :: |path| == 1;
  }

  lemma OnceInElement(one: seq<TemplateNode>, names: set<string>, e: Expr)
    requires |one| == 1 && one[0].Element?
    ensures RenderedOnce(one, names, e)
      <==> RenderedOnce(one[0].children, names, e) || e in ShownAttrs(one[0].attrs)
  {
    var children, attrs := one[0].children, one[0].attrs;
    AttrsShown(attrs, e);
    ChildAt(one, 0, [], false);
    assert [0] + [] == [0];
    if e in ShownAttrs(attrs) {
      var i :| 0 <= i < |attrs| && attrs[i].value == Dynamic(e) && !("on:" <= attrs[i].name);
      assert AttrAt(one, [0], i, e);
    }
    if !IsBare(e, names) && exists path :: TextAt(children, path, e) {
      var path :| TextAt(children, path, e);
      ChildAt(one, 0, path, false);
      assert TextAt(one, [0] + path, e);
    }
    if path, i :| AttrAt(children, path, i, e) {
      ChildAt(one, 0, path, false);
      assert AttrAt(one, [0] + path, i, e);
    }
    if path :| TextAt(one, path, e) {
      assert |path| > 1;
      assert TextAt(children, path[1..], e);
    }
    if path, i :| AttrAt(one, path, i, e) {
      assert |path| > 1 ==> AttrAt(children, path[1..], i, e);
    }
  }

  // A path leads into the first node or into the others.
  lemma PathSplit(nodes: seq<TemplateNode>, path: seq<nat>, inBlocks: bool)
    requires nodes != [] && NodeAt(nodes, path, inBlocks).Some?
    ensures path != []
    ensures path[0] == 0 ==> NodeAt([nodes[0]], path, inBlocks) == NodeAt(nodes, path, inBlocks)
    ensures path[0] > 0 ==> NodeAt(nodes[1..], [path[0] - 1] + path[1..], inBlocks) == NodeAt(nodes, path, inBlocks)
  {
    assert path[0] > 0 ==> ([path[0] - 1] + path[1..])[1..] == path[1..];
  }

  lemma OnceSplit(nodes: seq<TemplateNode>, names: set<string>, e: Expr)
    requires nodes != []
    ensures RenderedOnce(nodes, names, e)
      <==> RenderedOnce([nodes[0]], names, e) || RenderedOnce(nodes[1..], names, e)
  {
    hide TextAt, AttrAt;
    TextSplit(nodes, e);
    AttrSplit(nodes, e);
  }

  lemma TextSplit(nodes: seq<TemplateNode>, e: Expr)
    requires nodes != []
    ensures (exists path :: TextAt(nodes, path, e))
      <==> (exists path :: TextAt([nodes[0]], path, e)) || exists path :: TextAt(nodes[1..], path, e)
  {
    hide NodeAt;
    if path :| TextAt(nodes, path, e) {
      PathSplit(nodes, path, false);
      assert TextAt([nodes[0]], path, e) || TextAt(nodes[1..], [path[0] - 1] + path[1..], e);
    }
    if path :| TextAt([nodes[0]], path, e) {
      OnlyHead(nodes, path, false);
      assert TextAt(nodes, path, e);
    }
    if path :| TextAt(nodes[1..], path, e) {
      OneLater(nodes, path, false);
      assert TextAt(nodes, [path[0] + 1] + path[1..], e);
    }
  }

  lemma AttrSplit(nodes: seq<TemplateNode>, e: Expr)
    requires nodes != []
    ensures (exists path, i :: AttrAt(nodes, path, i, e))
      <==> (exists path, i :: AttrAt([nodes[0]], path, i, e)) || exists path, i :: AttrAt(nodes[1..], path, i, e)
  {
    hide NodeAt;
    if path, i :| AttrAt(nodes, path, i, e) {
      PathSplit(nodes, path, false);
      assert AttrAt([nodes[0]], path, i, e) || AttrAt(nodes[1..], [path[0] - 1] + path[1..], i, e);
    }
    if path, i :| AttrAt([nodes[0]], path, i, e) {
      OnlyHead(nodes, path, false);
      assert AttrAt(nodes, path, i, e);
    }
    if path, i :| AttrAt(nodes[1..], path, i, e) {
      OneLater(nodes, path, false);
      assert AttrAt(nodes, [path[0] + 1] + path[1..], i, e);
    }
  }

  lemma OnlyHead(nodes: seq<TemplateNode>, path: seq<nat>, inBlocks: bool)
    requires nodes != [] && NodeAt([nodes[0]], path, inBlocks).Some?
    ensures NodeAt(nodes, path, inBlocks) == NodeAt([nodes[0]], path, inBlocks)
  {
  }

  lemma OneLater(nodes: seq<TemplateNode>, path: seq<nat>, inBlocks: bool)
    requires nodes != [] && NodeAt(nodes[1..], path, inBlocks).Some?
    ensures path != [] && NodeAt(nodes, [path[0] + 1] + path[1..], inBlocks) == NodeAt(nodes[1..], path, inBlocks)
  {
    assert ([path[0] + 1] + path[1..])[1..] == path[1..];
  }

  /** Written once are exactly the other texts and the attributes that are no event handlers. */
  lemma UnnamedAreTheOthers(c: Component, e: Expr)
    ensures e in Unnamed(c) <==> RenderedOnce(c.view, BindingNames(c), e)
  {
    OnceByPaths(c.view, BindingNames(c), e);
  }

  // ----- Whether the page shows current values -----

  /** The text at the path reads v: the named text of that place, or what was written there when the
      page was made. */
  ghost predicate TextReads(c: Component, sem: Meaning, made: Env, w: World, path: seq<nat>, e: Expr, v: int) {
    if IsBare(e, BindingNames(c)) then
      exists t :: 0 <= t < |Places(c)| && t < |w.texts| && Places(c)[t] == path && w.texts[t] == v
    else v == Eval(e, made, sem)
  }

  /** Every text and every attribute reads its expression's value now. */
  ghost predicate ShowsCurrent(c: Component, sem: Meaning, made: Env, w: World) {
    && (forall path, e | TextAt(c.view, path, e) :: TextReads(c, sem, made, w, path, e, Eval(e, w.env, sem)))
    && (forall path, i, e | AttrAt(c.view, path, i, e) :: Eval(e, made, sem) == Eval(e, w.env, sem))
  }

  // The same after any run of setter calls and one flush, whatever the operators mean.
  ghost predicate AlwaysShowsCurrent(c: Component, g: Graph) {
    forall sem: Meaning, props: Env, calls: seq<(Setter, int)> {:trigger SetAll(Created(c, props, sem), calls)} |
      forall k | 0 <= k < |calls| :: IsSetter(c, g, calls[k].0) ::
      ShowsCurrent(c, sem, Created(c, props, sem).env, Flush(SetAll(Created(c, props, sem), calls), sem))
  }

  lemma PlacedOnce(c: Component, i: nat, j: nat)
    requires i < |Places(c)| && j < |Places(c)| && Places(c)[i] == Places(c)[j]
    ensures i == j
  {
    hide TextAt, Places, Texts;
    NamedTextsAreBareBindings(c);
    NotBeforeItself(Places(c)[i]);
  }

  lemma {:induction false} NotBeforeItself(p: seq<nat>)
    ensures !Before(p, p)
  {
    if p != [] {
      NotBeforeItself(p[1..]);
    }
  }

  lemma NamedTextReads(c: Component, sem: Meaning, made: Env, w: World, t: nat)
    requires |w.texts| == |Texts(c)| && t < |Texts(c)|
    ensures |Places(c)| == |Texts(c)| && IsBare(Variable(Texts(c)[t]), BindingNames(c))
    ensures TextAt(c.view, Places(c)[t], Variable(Texts(c)[t]))
    ensures TextReads(c, sem, made, w, Places(c)[t], Variable(Texts(c)[t]), Read(w.env, Texts(c)[t]))
      <==> TextFresh(c, w, t)
  {
    hide TextAt, Places, Texts;
    NamedTextsAreBareBindings(c);
    forall i: nat | i < |Places(c)| && Places(c)[i] == Places(c)[t]
      ensures i == t
    {
      PlacedOnce(c, i, t);
    }
  }

  lemma BareTextHasPlace(c: Component, path: seq<nat>, e: Expr) returns (t: nat)
    requires TextAt(c.view, path, e) && IsBare(e, BindingNames(c))
    ensures t < |Places(c)| == |Texts(c)| && Places(c)[t] == path && Texts(c)[t] == e.name
  {
    NamedTextsAreBareBindings(c);
    hide NodeAt, Places, Texts;
    t :| 0 <= t < |Places(c)| && Places(c)[t] == path;
    assert TextAt(c.view, path, Variable(Texts(c)[t]));
  }

  /** Where the memos are right, the rendered page is current exactly when its named texts are and
      what is written once has not changed. */
  lemma CurrentByPaths(c: Component, sem: Meaning, made: Env, w: World)
    requires |w.texts| == |Texts(c)| && forall i: nat | IsMemo(c, i) :: MemoFresh(c, w.env, sem, i)
    ensures ShowsCurrent(c, sem, made, w) <==> UpToDate(c, sem, w) && Unchanged(c, sem, made, w.env)
  {
    hide TextAt, AttrAt, Places, Texts, TextFresh, TextReads, Unnamed, MemoFresh, IsBare;
    if ShowsCurrent(c, sem, made, w) {
      forall t: nat | t < |Texts(c)|
        ensures TextFresh(c, w, t)
      {
        NamedTextReads(c, sem, made, w, t);
      }
      forall e | e in Unnamed(c)
        ensures Eval(e, w.env, sem) == Eval(e, made, sem)
      {
        UnnamedAreTheOthers(c, e);
        WrittenReads(c, sem, made, w, e);
      }
    }
    if UpToDate(c, sem, w) && Unchanged(c, sem, made, w.env) {
      forall path, e | TextAt(c.view, path, e)
        ensures TextReads(c, sem, made, w, path, e, Eval(e, w.env, sem))
      {
        TextIsCurrent(c, sem, made, w, path, e);
      }
      forall path, i, e | AttrAt(c.view, path, i, e)
        ensures Eval(e, made, sem) == Eval(e, w.env, sem)
      {
        UnnamedAreTheOthers(c, e);
      }
    }
  }

  lemma WrittenReads(c: Component, sem: Meaning, made: Env, w: World, e: Expr)
    requires ShowsCurrent(c, sem, made, w) && RenderedOnce(c.view, BindingNames(c), e)
    ensures Eval(e, w.env, sem) == Eval(e, made, sem)
  {
    hide TextAt, AttrAt, Places, Eval;
    if forall path, i :: !AttrAt(c.view, path, i, e) {
      var path :| TextAt(c.view, path, e);
      assert TextReads(c, sem, made, w, path, e, Eval(e, w.env, sem));
    }
  }

  lemma TextIsCurrent(c: Component, sem: Meaning, made: Env, w: World, path: seq<nat>, e: Expr)
    requires UpToDate(c, sem, w) && Unchanged(c, sem, made, w.env) && TextAt(c.view, path, e)
    ensures TextReads(c, sem, made, w, path, e, Eval(e, w.env, sem))
  {
    hide TextAt, AttrAt, Places, Texts, Unnamed;
    if IsBare(e, BindingNames(c)) {
      var t := BareTextHasPlace(c, path, e);
      assert TextFresh(c, w, t);
    } else {
      UnnamedAreTheOthers(c, e);
    }
  }

  /** Every bare binding rendered anywhere in the view shows its current value after any run of
      setter calls and one flush. */
  lemma BareBindingsAreCurrent(c: Component, nodes: seq<DepNode>, g: Graph, sem: Meaning, w: World,
      calls: seq<(Setter, int)>, path: seq<nat>, x: string)
    requires Program(c, nodes, g) && Settled(c, g, sem, w) && forall k | 0 <= k < |calls| :: IsSetter(c, g, calls[k].0)
    requires TextAt(c.view, path, Variable(x)) && x in BindingNames(c)
    ensures var w' := Flush(SetAll(w, calls), sem);
      exists t :: 0 <= t < |Places(c)| && t < |w'.texts| && Places(c)[t] == path && w'.texts[t] == Read(w'.env, x)
  {
    hide TextAt, Places, Texts, Program, Settled, IsSetter, Flush;
    FlushBringsUpToDate(c, nodes, g, sem, w, calls);
    var t := BareTextHasPlace(c, path, Variable(x));
    assert TextFresh(c, Flush(SetAll(w, calls), sem), t);
  }

  /** All that is rendered, texts and attributes, always reads its current value if and only if no
      text other than a bare binding, and no attribute, mentions anything that comes from a state. */
  lemma RenderedIsCurrentExactly(c: Component, nodes: seq<DepNode>, g: Graph)
    requires Program(c, nodes, g)
    ensures AlwaysShowsCurrent(c, g)
      <==> forall e | RenderedOnce(c.view, BindingNames(c), e) :: Constant(c, e)
  {
    hide Program, ShowsCurrent, RenderedOnce, Unnamed, Unchanged, Constant, IsSetter, Flush, Settled;
    ViewCurrentExactly(c, nodes, g);
    forall e
      ensures e in Unnamed(c) <==> RenderedOnce(c.view, BindingNames(c), e)
    {
      UnnamedAreTheOthers(c, e);
    }
    forall sem: Meaning, props: Env, calls: seq<(Setter, int)> | forall k | 0 <= k < |calls| ::
      IsSetter(c, g, calls[k].0)
      ensures var w0 := Created(c, props, sem);
        var w := Flush(SetAll(w0, calls), sem);
        ShowsCurrent(c, sem, w0.env, w) <==> UpToDate(c, sem, w) && Unchanged(c, sem, w0.env, w.env)
    {
      RunByPaths(c, nodes, g, sem, props, calls);
    }
  }

  lemma RunByPaths(c: Component, nodes: seq<DepNode>, g: Graph, sem: Meaning, props: Env, calls: seq<(Setter, int)>)
    requires Program(c, nodes, g) && forall k | 0 <= k < |calls| :: IsSetter(c, g, calls[k].0)
    ensures var w0 := Created(c, props, sem);
      var w := Flush(SetAll(w0, calls), sem);
      ShowsCurrent(c, sem, w0.env, w) <==> UpToDate(c, sem, w) && Unchanged(c, sem, w0.env, w.env)
  {
    ProgramParts(c, nodes, g);
    hide Program, ShowsCurrent, Unchanged, IsSetter, Flush, Settled, WellNamed, EarlierOnly, GraphOf, Covered, Created;
    var w0 := Created(c, props, sem);
    CreatedIsSettled(c, g, props, sem);
    FlushBringsUpToDate(c, nodes, g, sem, w0, calls);
    CurrentByPaths(c, sem, w0.env, Flush(SetAll(w0, calls), sem));
  }

  // ----- What the view mentions -----

  // An expression of the node itself, event handlers and heads of blocks included.
  ghost predicate Holds(n: TemplateNode, e: Expr) {
    || n == TExpr(e)
    || (n.Element? && exists i :: 0 <= i < |n.attrs| && n.attrs[i].value in {Dynamic(e), EventHandler(e)})
    || (n.Block? && e in n.heads)
  }

  // Some node of the view, inside blocks or not, holds an expression that mentions x.
  ghost predicate MentionedIn(nodes: seq<TemplateNode>, x: string) {
    exists path, e :: MentionedAt(nodes, path, e, x)
  }

  ghost predicate MentionedAt(nodes: seq<TemplateNode>, path: seq<nat>, e: Expr, x: string) {
    NodeAt(nodes, path, true).Some? && Holds(NodeAt(nodes, path, true).value, e) && x in ExprRefs(e)
  }

  lemma {:induction false} AttrsMention(attrs: seq<Attr>, x: string)
    ensures x in AttrRefs(attrs)
      <==> exists i, e :: 0 <= i < |attrs| && attrs[i].value in {Dynamic(e), EventHandler(e)} && x in ExprRefs(e)
  {
    hide ExprRefs;
    if attrs != [] {
      AttrsMention(attrs[1..], x);
      if i, e :| 0 <= i < |attrs| && attrs[i].value in {Dynamic(e), EventHandler(e)} && x in ExprRefs(e) {
        assert i == 0 || attrs[1..][i - 1] == attrs[i];
      }
    }
  }

  lemma {:induction false} HeadsMention(es: seq<Expr>, x: string)
    ensures x in ExprsRefs(es) <==> exists e :: e in es && x in ExprRefs(e)
  {
    hide ExprRefs;
    if es != [] {
      HeadsMention(es[1..], x);
      assert es[0] in es;
      if e :| e in es[1..] && x in ExprRefs(e) {
        assert e in es && x in ExprRefs(e);
      }
      if e :| e in es && x in ExprRefs(e) {
        assert e == es[0] || e in es[1..];
      }
    }
  }

  // The refs of a node are its own and those below it.
  lemma NodeMentions(n: TemplateNode, x: string)
    ensures x in NodeRefs(n)
      <==> (exists e :: Holds(n, e) && x in ExprRefs(e))
           || (n.Element? && x in TemplateRefs(n.children)) || (n.Block? && x in TemplateRefs(n.inner))
  {
    hide ExprRefs, AttrRefs, ExprsRefs;
    match n
    case Element(attrs, _) =>
      AttrsMention(attrs, x);
      if i, e :| 0 <= i < |attrs| && attrs[i].value in {Dynamic(e), EventHandler(e)} && x in ExprRefs(e) {
        assert Holds(n, e);
      }
    case Block(heads, _) =>
      HeadsMention(heads, x);
      if e :| e in heads && x in ExprRefs(e) {
        assert Holds(n, e);
      }
    case TExpr(e) => assert Holds(n, e);
    case Text(_) =>
  }

  /** The names collected from a view, for which it gets its sinks, are those some node mentions. */
  lemma {:induction false} ViewRefsByPaths(nodes: seq<TemplateNode>, x: string)
    ensures x in TemplateRefs(nodes) <==> MentionedIn(nodes, x)
    decreases nodes, 0
  {
    if nodes != [] {
      hide MentionedIn;
      ViewRefsInNode(nodes[0], x);
      ViewRefsByPaths(nodes[1..], x);
      MentionSplit(nodes, x);
    } else {
      assert forall path :: NodeAt(nodes, path, true) == None;
    }
  }

  lemma {:induction false} ViewRefsInNode(n: TemplateNode, x: string)
    ensures x in NodeRefs(n) <==> MentionedIn([n], x)
    decreases n, 1
  {
    hide Holds, ExprRefs, NodeRefs, TemplateRefs;
    NodeMentions(n, x);
    ChildAt([n], 0, [], true);
    assert [0] + [] == [0];
    if e :| Holds(n, e) && x in ExprRefs(e) {
      assert MentionedAt([n], [0], e, x);
    }
    if n.Element? || n.Block? {
      var inner := if n.Element? then n.children else n.inner;
      ViewRefsByPaths(inner, x);
      if path, e :| MentionedAt(inner, path, e, x) {
        ChildAt([n], 0, path, true);
        assert MentionedAt([n], [0] + path, e, x);
      }
      if path, e :| MentionedAt([n], path, e, x) {
        assert |path| > 1 ==> MentionedAt(inner, path[1..], e, x);
      }
    }
  }

  lemma MentionSplit(nodes: seq<TemplateNode>, x: string)
    requires nodes != []
    ensures MentionedIn(nodes, x) <==> MentionedIn([nodes[0]], x) || MentionedIn(nodes[1..], x)
  {
    hide NodeAt, Holds, ExprRefs;
    if path, e :| MentionedAt(nodes, path, e, x) {
      PathSplit(nodes, path, true);
      assert MentionedAt([nodes[0]], path, e, x) || MentionedAt(nodes[1..], [path[0] - 1] + path[1..], e, x);
    }
    if path, e :| MentionedAt([nodes[0]], path, e, x) {
      OnlyHead(nodes, path, true);
      assert MentionedAt(nodes, path, e, x);
    }
    if path, e :| MentionedAt(nodes[1..], path, e, x) {
      OneLater(nodes, path, true);
      assert MentionedAt(nodes, [path[0] + 1] + path[1..], e, x);
    }
  }

  /** A view node stands for a binding exactly when some node of the view mentions it. */
  lemma SinksAreMentions(c: Component, nodes: seq<DepNode>, g: Graph, j: nat)
    requires SinksOf(c, nodes, g) && WellNamed(c) && j < |c.bindings|
    ensures MentionedIn(c.view, c.bindings[j].name)
      <==> exists i: nat :: |c.bindings| <= i < |nodes| && Edge(g, i, j)
  {
    hide MentionedIn;
    var x, refs := c.bindings[j].name, TemplateRefs(c.view);
    var shown := BindingsAmong(BindingNames(c), refs);
    ViewRefsByPaths(c.view, x);
    AmongAre(BindingNames(c), refs, x);
    if x in shown {
      var k :| 0 <= k < |shown| && shown[k] == x;
      assert Edge(g, |c.bindings| + k, j);
    }
  }

  lemma {:induction false} AmongAre(names: set<string>, refs: seq<string>, x: string)
    ensures x in BindingsAmong(names, refs) <==> x in names && x in refs
  {
    if refs != [] {
      AmongAre(names, refs[..|refs| - 1], x);
      assert refs == refs[..|refs| - 1] + [refs[|refs| - 1]];
    }
  }
}
