/** What a view shows apart from its named text nodes: texts of expressions and dynamic
    attributes. They are written once, when the page is made, and stay right exactly when they
    show nothing that depends on a state. */
module ReactiveView {
  import opened Names
  import opened Finite
  import opened Graphs
  import opened Reactivity
  import opened Component
  import opened ReactiveUpdate
  import opened ReactiveCoverage

  // The attributes set to an expression's value; event handlers show nothing.
  function ShownAttrs(attrs: seq<Attr>): seq<Expr> {
    if attrs == [] then []
    else
      var a := attrs[0];
      (if a.value.Dynamic? && !("on:" <= a.name) then [a.value.shown] else []) + ShownAttrs(attrs[1..])
  }

  // The rendered expressions that get no named text node.
  function ShownOnce(nodes: seq<TemplateNode>, names: set<string>): seq<Expr>
    decreases nodes, 0
  {
    if nodes == [] then [] else ShownOnceIn(nodes[0], names) + ShownOnce(nodes[1..], names)
  }

  function ShownOnceIn(n: TemplateNode, names: set<string>): seq<Expr>
    decreases n, 1
  {
    match n
    case TExpr(e) => if e.Variable? && e.name in names then [] else [e]
    case Element(attrs, children) => ShownAttrs(attrs) + ShownOnce(children, names)
    case _ => []
  }

  function Unnamed(c: Component): seq<Expr> {
    ShownOnce(c.view, BindingNames(c))
  }

  ghost predicate IsState(c: Component, j: nat) {
    j < |c.bindings| && c.bindings[j].qualifier == State
  }

  /** Nothing the expression mentions is a state or comes, through memos, from one. */
  ghost predicate Constant(c: Component, e: Expr) {
    forall k: nat, j: nat | k < |c.bindings| && NameOf(c, k) in Vars(e) && IsState(c, j) :: !Reach(Mentions(c), k, j)
  }

  /** The expressions have the values they had when they were written into the page. */
  ghost predicate Unchanged(c: Component, sem: Meaning, env: Env, env': Env) {
    forall e | e in Unnamed(c) :: Eval(e, env', sem) == Eval(e, env, sem)
  }

  /** Named texts, other texts and attributes, after any run of setter calls and one flush,
      whatever the operators mean. */
  ghost predicate ViewAlwaysCurrent(c: Component, g: Graph) {
    forall sem: Meaning, props: Env, calls: seq<(Setter, int)> {:trigger SetAll(Created(c, props, sem), calls)} |
      forall k | 0 <= k < |calls| :: IsSetter(c, g, calls[k].0) ::
      var w := Flush(SetAll(Created(c, props, sem), calls), sem);
      UpToDate(c, sem, w) && Unchanged(c, sem, Created(c, props, sem).env, w.env)
  }

  // ----- What setters leave alone -----

  // Neither a state nor a memo.
  ghost predicate Outside(c: Component, x: string) {
    (forall k: nat | IsMemo(c, k) :: NameOf(c, k) != x) && forall j: nat | IsState(c, j) :: NameOf(c, j) != x
  }

  lemma UpdaterFrame(c: Component, g: Graph, w: World, s: Setter, sem: Meaning, x: string)
    requires IsSetter(c, g, s) && Outside(c, x)
    ensures Read(RunUpdater(w, s, sem).env, x) == Read(w.env, x)
  {
    hide Reach;
    var memos :| SetterFor(c, g, s, memos);
    RunMemosFrame(c, memos, w.env, sem, x);
  }

  lemma {:induction false} SetAllFrame(c: Component, g: Graph, w: World, calls: seq<(Setter, int)>, x: string)
    requires (forall k | 0 <= k < |calls| :: IsSetter(c, g, calls[k].0)) && Outside(c, x)
    requires forall k | 0 <= k < |w.pending| :: IsSetter(c, g, w.pending[k])
    ensures var w' := SetAll(w, calls); Read(w'.env, x) == Read(w.env, x) && forall k | 0 <= k < |w'.pending| ::
      IsSetter(c, g, w'.pending[k])
  {
    hide Outside;
    if calls != [] {
      var front, s := calls[..|calls| - 1], calls[|calls| - 1].0;
      SetAllFrame(c, g, w, front, x);
      assert IsSetter(c, g, s);
      SetterIsState(c, g, s, x);
    }
  }

  lemma SetterIsState(c: Component, g: Graph, s: Setter, x: string)
    requires IsSetter(c, g, s) && Outside(c, x)
    ensures s.state != x
  {
    hide Reach;
    var memos :| SetterFor(c, g, s, memos);
    assert IsState(c, s.source);
  }

  lemma {:induction false} RunAllFrame(c: Component, g: Graph, w: World, sem: Meaning, x: string)
    requires (forall k | 0 <= k < |w.pending| :: IsSetter(c, g, w.pending[k])) && Outside(c, x)
    ensures Read(RunAll(w, sem).env, x) == Read(w.env, x)
    decreases |w.pending|
  {
    hide Outside, IsSetter, RunUpdater, Read;
    if w.pending != [] {
      var s, w' := w.pending[0], RunUpdater(w, w.pending[0], sem).(pending := w.pending[1..]);
      UpdaterFrame(c, g, w, s, sem, x);
      RunAllFrame(c, g, w', sem, x);
    }
  }

  lemma FlushFrame(c: Component, g: Graph, w: World, calls: seq<(Setter, int)>, sem: Meaning, x: string)
    requires w.pending == [] && (forall k | 0 <= k < |calls| :: IsSetter(c, g, calls[k].0)) && Outside(c, x)
    ensures Read(Flush(SetAll(w, calls), sem).env, x) == Read(w.env, x)
  {
    hide Outside, IsSetter, Read;
    SetAllFrame(c, g, w, calls, x);
    RunAllFrame(c, g, SetAll(w, calls).(scheduled := false), sem, x);
  }

  // ----- Constant expressions stay -----

  // A binding that comes from no state is the same in both environments.
  lemma {:induction false} BindingStays(c: Component, sem: Meaning, env: Env, env': Env, k: nat)
    requires WellNamed(c) && EarlierOnly(c) && k < |c.bindings| && forall j: nat | IsState(c, j) ::
      !Reach(Mentions(c), k, j)
    requires forall i: nat | IsMemo(c, i) :: MemoFresh(c, env, sem, i) && MemoFresh(c, env', sem, i)
    requires forall x | Outside(c, x) :: Read(env, x) == Read(env', x)
    ensures Read(env, NameOf(c, k)) == Read(env', NameOf(c, k))
    decreases k
  {
    hide Reach, Mentions, Eval, Vars, Read, WellNamed;
    if IsMemo(c, k) {
      var e := ExprOf(c, k);
      forall x | x in Vars(e)
        ensures Read(env, x) == Read(env', x)
      {
        if m: nat :| m < |c.bindings| && NameOf(c, m) == x {
          MentionEdge(c, k, m);
          forall j: nat | IsState(c, j)
            ensures !Reach(Mentions(c), m, j)
          {
            if Reach(Mentions(c), m, j) {
              EdgeThenReach(Mentions(c), k, m, j);
            }
          }
          BindingStays(c, sem, env, env', m);
        } else {
          assert Outside(c, x);
        }
      }
      EvalFrame(e, env, env', sem);
    } else {
      ReachRefl(Mentions(c), k);
      assert !IsState(c, k);
      OtherBinding(c, k);
    }
  }

  lemma OtherBinding(c: Component, k: nat)
    requires WellNamed(c) && k < |c.bindings| && !IsMemo(c, k) && !IsState(c, k)
    ensures Outside(c, NameOf(c, k))
  {
    forall i: nat | i < |c.bindings| && NameOf(c, i) == NameOf(c, k)
      ensures i == k
    {
      DistinctNames(c, i, k);
    }
  }

  lemma ConstantStays(c: Component, sem: Meaning, env: Env, env': Env, e: Expr)
    requires WellNamed(c) && EarlierOnly(c) && Constant(c, e)
    requires forall i: nat | IsMemo(c, i) :: MemoFresh(c, env, sem, i) && MemoFresh(c, env', sem, i)
    requires forall x | Outside(c, x) :: Read(env, x) == Read(env', x)
    ensures Eval(e, env', sem) == Eval(e, env, sem)
  {
    hide Reach, Mentions, Eval, Vars, Read, WellNamed, EarlierOnly, MemoFresh;
    forall x | x in Vars(e)
      ensures Read(env, x) == Read(env', x)
    {
      if k: nat :| k < |c.bindings| && NameOf(c, k) == x {
        BindingStays(c, sem, env, env', k);
      } else {
        assert Outside(c, x);
      }
    }
    EvalFrame(e, env, env', sem);
  }

  // ----- Others go stale -----

  // One more in a state that an expression comes from: where operators add, its value grows.
  lemma DependentChanges(c: Component, nodes: seq<DepNode>, g: Graph, e: Expr, k: nat, s: Setter)
    requires Program(c, nodes, g) && IsSetter(c, g, s) && k < |c.bindings| && NameOf(c, k) in Vars(e)
    requires Reach(Mentions(c), k, s.source)
    ensures var w := Created(c, map[], Adding);
      Eval(e, Flush(SetAll(w, [(s, Read(w.env, s.state) + 1)]), Adding).env, Adding) != Eval(e, w.env, Adding)
  {
    hide Reach, Mentions, Eval, Vars, Program, Settled, TextFresh, MemoFresh;
    var memos :| SetterFor(c, g, s, memos);
    var w := Created(c, map[], Adding);
    var v := Read(w.env, s.state) + 1;
    var calls := [(s, v)];
    var env' := RunMemos(s.memos, w.env[s.state := v], Adding);
    ProgramParts(c, nodes, g);
    CreatedIsSettled(c, g, map[], Adding);
    FlushBringsUpToDate(c, nodes, g, Adding, w, calls);
    OneCall(w, s, v);
    FlushOfOne(w, s, v, Adding);
    assert forall i | i in memos :: IsMemo(c, i);
    StateIsNoMemo(c, s.source);
    RunMemosFrame(c, memos, w.env[s.state := v], Adding, s.state);
    forall x | x != s.state && (forall i: nat | IsMemo(c, i) :: NameOf(c, i) != x)
      ensures Read(w.env, x) == Read(env', x)
    {
      RunMemosFrame(c, memos, w.env[s.state := v], Adding, x);
    }
    forall x | x in Vars(e)
      ensures Read(w.env, x) <= Read(env', x)
    {
      if i: nat :| IsMemo(c, i) && NameOf(c, i) == x {
        MemosGrow(c, w.env, env', s.source, i);
      }
    }
    if k != s.source {
      MentionersAreMemos(c, k, s.source);
      MemosGrow(c, w.env, env', s.source, k);
    }
    assert Read(w.env, NameOf(c, k)) < Read(env', NameOf(c, k));
    EvalGrows(e, w.env, env');
  }

  lemma ProgramParts(c: Component, nodes: seq<DepNode>, g: Graph)
    requires Program(c, nodes, g)
    ensures WellNamed(c) && EarlierOnly(c) && GraphOf(c, nodes, g) && Covered(c, g)
  {
  }

  /** The whole rendered view, texts and attributes, is always current if and only if no
      expression text and no dynamic attribute mentions anything that comes from a state. */
  lemma ViewCurrentExactly(c: Component, nodes: seq<DepNode>, g: Graph)
    requires Program(c, nodes, g)
    ensures ViewAlwaysCurrent(c, g) <==> forall e | e in Unnamed(c) :: Constant(c, e)
  {
    hide Reach, Mentions, Eval, Vars, Program, Settled, UpToDate, Unnamed, IsSetter, Flush, Outside, Constant;
    ProgramParts(c, nodes, g);
    hide WellNamed, EarlierOnly, GraphOf, Covered;
    if forall e | e in Unnamed(c) :: Constant(c, e) {
      forall sem: Meaning, props: Env, calls: seq<(Setter, int)> | forall k | 0 <= k < |calls| ::
        IsSetter(c, g, calls[k].0)
        ensures var w := Flush(SetAll(Created(c, props, sem), calls), sem);
          UpToDate(c, sem, w) && Unchanged(c, sem, Created(c, props, sem).env, w.env)
      {
        RunStaysCurrent(c, nodes, g, sem, props, calls);
      }
    } else {
      var e :| e in Unnamed(c) && !Constant(c, e);
      TextGoesStale(c, nodes, g, e);
    }
  }

  lemma RunStaysCurrent(c: Component, nodes: seq<DepNode>, g: Graph, sem: Meaning, props: Env,
      calls: seq<(Setter, int)>)
    requires Program(c, nodes, g) && forall k | 0 <= k < |calls| :: IsSetter(c, g, calls[k].0)
    requires forall e | e in Unnamed(c) :: Constant(c, e)
    ensures var w := Flush(SetAll(Created(c, props, sem), calls), sem);
      UpToDate(c, sem, w) && Unchanged(c, sem, Created(c, props, sem).env, w.env)
  {
    hide Reach, Mentions, Eval, Vars, Program, Settled, Unnamed, IsSetter, Flush, Outside, Constant, MemoFresh,
      TextFresh;
    var w0 := Created(c, props, sem);
    var w := Flush(SetAll(w0, calls), sem);
    ProgramParts(c, nodes, g);
    CreatedIsSettled(c, g, props, sem);
    FlushBringsUpToDate(c, nodes, g, sem, w0, calls);
    hide WellNamed, EarlierOnly, GraphOf, Covered;
    forall x | Outside(c, x)
      ensures Read(w0.env, x) == Read(w.env, x)
    {
      FlushFrame(c, g, w0, calls, sem, x);
    }
    forall e | e in Unnamed(c)
      ensures Eval(e, w.env, sem) == Eval(e, w0.env, sem)
    {
      ConstantStays(c, sem, w0.env, w.env, e);
    }
  }

  lemma TextGoesStale(c: Component, nodes: seq<DepNode>, g: Graph, e: Expr)
    requires Program(c, nodes, g) && e in Unnamed(c) && !Constant(c, e)
    ensures !ViewAlwaysCurrent(c, g)
  {
    hide Reach, Mentions, Eval, Vars, Program, UpToDate, Unnamed, Flush;
    var k: nat, j: nat :| k < |c.bindings| && NameOf(c, k) in Vars(e) && IsState(c, j) && Reach(Mentions(c), k, j);
    var s, memos := SetterExists(c, g, j);
    SetterIsSetter(c, g, s, memos);
    hide IsSetter, SetterFor, IsState;
    DependentChanges(c, nodes, g, e, k, s);
    var w := Created(c, map[], Adding);
    var calls := [(s, Read(w.env, s.state) + 1)];
    assert !Unchanged(c, Adding, w.env, Flush(SetAll(w, calls), Adding).env);
  }

  // state x, and an element whose title is x
  function TitledElement(): Component {
    Component("C", [Binding(State, "x", Some(Literal(0)))], [Element([Attr("title", Dynamic(Variable("x")))], [])])
  }

  /** An attribute that shows a state itself goes stale, though a text would not. */
  lemma AttributeGoesStale(nodes: seq<DepNode>, g: Graph)
    requires GraphOf(TitledElement(), nodes, g)
    ensures WellNamed(TitledElement()) && Covered(TitledElement(), g) && !ViewAlwaysCurrent(TitledElement(), g)
  {
    var c := TitledElement();
    var x, attrs := Variable("x"), c.view[0].attrs;
    hide Reach;
    assert attrs[1..] == [] && c.view[1..] == [];
    assert "title"[0] != "on:"[0];
    assert ShownAttrs(attrs) == [x] + ShownAttrs([]);
    assert Unnamed(c) == ShownAttrs(attrs) + [] + [];
    assert x in Unnamed(c);
    assert AttrRefs(attrs) == ["x"] + AttrRefs([]);
    assert TemplateRefs(c.view) == AttrRefs(attrs) + [] + [];
    assert "x"[0] != 'v';
    assert EarlierOnly(c) && Program(c, nodes, g);
    ReachRefl(Mentions(c), 0);
    assert NameOf(c, 0) in Vars(x) && IsState(c, 0);
    assert !Constant(c, x);
    ViewCurrentExactly(c, nodes, g);
  }
}
