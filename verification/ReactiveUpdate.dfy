/** The generated update code and the batching queue it runs in: each setter's updater
    recomputes only its own dependents, and a flush leaves everything as a full
    recomputation would. */
module ReactiveUpdate {
  import opened Names
  import opened Finite
  import opened Graphs
  import opened Reactivity
  import opened Component

  type Env = map<string, int>

  // What an operator makes of its operands' values.
  type Meaning = (string, seq<int>) -> int

  // ----- Values of expressions -----

  function Read(env: Env, x: string): int {
    if x in env then env[x] else 0
  }

  function Eval(e: Expr, env: Env, sem: Meaning): int
    decreases e, 1
  {
    match e
    case Literal(v) => v
    case Variable(x) => Read(env, x)
    case Node(op, parts) => sem(op, EvalAll(parts, env, sem))
    case EnumInit(variant, values) => sem(variant, EvalAll(values, env, sem))
  }

  function EvalAll(es: seq<Expr>, env: Env, sem: Meaning): seq<int>
    decreases es, 0
  {
    if es == [] then [] else [Eval(es[0], env, sem)] + EvalAll(es[1..], env, sem)
  }

  // Every variable an expression mentions.
  function Vars(e: Expr): set<string>
    decreases e, 1
  {
    match e
    case Literal(_) => {}
    case Variable(x) => {x}
    case Node(_, parts) => VarsOfAll(parts)
    case EnumInit(_, values) => VarsOfAll(values)
  }

  function VarsOfAll(es: seq<Expr>): set<string>
    decreases es, 0
  {
    if es == [] then {} else Vars(es[0]) + VarsOfAll(es[1..])
  }

  lemma {:induction false} EvalFrame(e: Expr, env: Env, env': Env, sem: Meaning)
    requires forall x | x in Vars(e) :: Read(env, x) == Read(env', x)
    ensures Eval(e, env, sem) == Eval(e, env', sem)
    decreases e, 1
  {
    hide Read;
    match e
    case Literal(_) =>
    case Variable(_) =>
    case Node(_, parts) => EvalAllFrame(parts, env, env', sem);
    case EnumInit(_, values) => EvalAllFrame(values, env, env', sem);
  }

  lemma {:induction false} EvalAllFrame(es: seq<Expr>, env: Env, env': Env, sem: Meaning)
    requires forall x | x in VarsOfAll(es) :: Read(env, x) == Read(env', x)
    ensures EvalAll(es, env, sem) == EvalAll(es, env', sem)
    decreases es, 0
  {
    if es != [] {
      EvalFrame(es[0], env, env', sem);
      EvalAllFrame(es[1..], env, env', sem);
    }
  }

  // ----- What a program must look like -----

  ghost predicate IsMemo(c: Component, i: nat) {
    i < |c.bindings| && c.bindings[i].qualifier == Memo && c.bindings[i].value.Some?
  }

  function NameOf(c: Component, i: nat): string {
    if i < |c.bindings| then c.bindings[i].name else ""
  }

  function ExprOf(c: Component, i: nat): Expr {
    if i < |c.bindings| && c.bindings[i].value.Some? then c.bindings[i].value.value else Literal(0)
  }

  // Memos read earlier bindings only.
  ghost predicate EarlierOnly(c: Component) {
    forall i, j: nat | IsMemo(c, i) && j < |c.bindings| && NameOf(c, j) in Vars(ExprOf(c, i)) :: j < i
  }

  // The first n bindings that memo i mentions.
  function MentionsOf(c: Component, i: nat, n: nat): seq<nat> {
    if n == 0 then []
    else MentionsOf(c, i, n - 1) + (if NameOf(c, n - 1) in Vars(ExprOf(c, i)) then [n - 1] else [])
  }

  // Who mentions whom, whether or not reference collection sees it.
  function Mentions(c: Component): Graph {
    seq(|c.bindings|, i requires 0 <= i < |c.bindings| =>
      if c.bindings[i].qualifier == Memo && c.bindings[i].value.Some? then MentionsOf(c, i, |c.bindings|) else [])
  }

  /** Every memo that mentions a state, directly or through other memos, also depends on it
      in the dependency graph. */
  ghost predicate Covered(c: Component, g: Graph) {
    forall i, j: nat | IsMemo(c, i) && j < |c.bindings| && c.bindings[j].qualifier == State
      && Reach(Mentions(c), i, j) ::
      Reach(g, i, j)
  }

  lemma {:induction false} MentionsOfMeans(c: Component, i: nat, n: nat)
    ensures forall j: nat :: j in MentionsOf(c, i, n) <==> j < n && NameOf(c, j) in Vars(ExprOf(c, i))
  {
    if n > 0 {
      MentionsOfMeans(c, i, n - 1);
    }
  }

  lemma MentionEdge(c: Component, i: nat, j: nat)
    ensures Edge(Mentions(c), i, j) <==> IsMemo(c, i) && j < |c.bindings| && NameOf(c, j) in Vars(ExprOf(c, i))
  {
    MentionsOfMeans(c, i, |c.bindings|);
  }

  lemma {:induction false} RefsAreVars(e: Expr)
    ensures forall x | x in ExprRefs(e) :: x in Vars(e)
    decreases e, 1
  {
    match e
    case Node(_, parts) => AllRefsAreVars(parts);
    case _ =>
  }

  lemma {:induction false} AllRefsAreVars(es: seq<Expr>)
    ensures forall x | x in ExprsRefs(es) :: x in VarsOfAll(es)
    decreases es, 0
  {
    if es != [] {
      RefsAreVars(es[0]);
      AllRefsAreVars(es[1..]);
    }
  }

  // What the dependency graph knows is really mentioned.
  lemma {:induction false} DependsMentions(c: Component, nodes: seq<DepNode>, g: Graph, i: nat, j: nat, p: seq<nat>)
    requires GraphOf(c, nodes, g) && i < |c.bindings| && IsPath(g, i, j, p)
    ensures Reach(Mentions(c), i, j)
    decreases |p|
  {
    hide Reach, Mentions;
    if |p| == 1 {
      ReachRefl(Mentions(c), i);
    } else {
      assert Edge(g, i, p[1]);
      assert Reads(c, i, p[1]);
      RefsAreVars(ExprOf(c, i));
      MentionEdge(c, i, p[1]);
      DependsMentions(c, nodes, g, p[1], j, p[1..]);
      EdgeThenReach(Mentions(c), i, p[1], j);
    }
  }

  // ----- Generated setters -----

  /** The function generated for one state: the assignments of its updater, in order, and
      the text nodes it refreshes, each with the binding it shows. */
  datatype Setter = Setter(source: nat, state: string, memos: seq<(string, Expr)>, texts: seq<(string, nat)>)

  function Assignments(c: Component, memos: seq<nat>): seq<(string, Expr)> {
    if memos == [] then []
    else [(NameOf(c, memos[0]), ExprOf(c, memos[0]))] + Assignments(c, memos[1..])
  }

  // The text nodes of the view, by the binding each shows.
  function Texts(c: Component): seq<string> {
    TextNodes(c.view, BindingNames(c))
  }

  /** The setter of state j: its updater assigns the memos that depend on j, in declaration
      order, and refreshes exactly the text nodes that show j or one of them. */
  ghost predicate SetterFor(c: Component, g: Graph, s: Setter, memos: seq<nat>) {
    && s.source < |c.bindings| && s.state == NameOf(c, s.source) && c.bindings[s.source].qualifier == State
    && Ascending(memos) && s.memos == Assignments(c, memos)
    && (forall i: nat :: i in memos <==> IsMemo(c, i) && Reach(g, i, s.source))
    && (forall b, t: nat :: (b, t) in s.texts <==>
          t < |Texts(c)| && Texts(c)[t] == b && (b == s.state || exists i :: i in memos && b == NameOf(c, i)))
  }

  ghost predicate IsSetter(c: Component, g: Graph, s: Setter) {
    exists memos :: SetterFor(c, g, s, memos)
  }

  // ----- Running an updater -----

  function RunMemos(ms: seq<(string, Expr)>, env: Env, sem: Meaning): Env {
    if ms == [] then env
    else RunMemos(ms[1..], env[ms[0].0 := Eval(ms[0].1, env, sem)], sem)
  }

  function RunTexts(ts: seq<(string, nat)>, texts: seq<int>, env: Env): seq<int> {
    if ts == [] then texts
    else
      var (b, t) := ts[0];
      RunTexts(ts[1..], if t < |texts| then texts[t := Read(env, b)] else texts, env)
  }

  lemma {:induction false} RunTextsEffect(ts: seq<(string, nat)>, texts: seq<int>, env: Env, shown: seq<string>)
    requires |texts| == |shown| && forall b, t | (b, t) in ts :: t < |shown| && shown[t] == b
    ensures var texts' := RunTexts(ts, texts, env);
      |texts'| == |texts|
      && forall t: nat | t < |texts| :: texts'[t] == if (shown[t], t) in ts then Read(env, shown[t]) else texts[t]
  {
    if ts != [] {
      var (b, t) := ts[0];
      assert (b, t) in ts;
      RunTextsEffect(ts[1..], texts[t := Read(env, b)], env, shown);
      assert ts == [ts[0]] + ts[1..];
    }
  }

  lemma DistinctNames(c: Component, i: nat, j: nat)
    requires WellNamed(c) && i < |c.bindings| && j < |c.bindings| && NameOf(c, i) == NameOf(c, j)
    ensures i == j
  {
  }

  // Names outside the list keep their values.
  lemma {:induction false} RunMemosFrame(c: Component, memos: seq<nat>, env: Env, sem: Meaning, x: string)
    requires forall i | i in memos :: NameOf(c, i) != x
    ensures Read(RunMemos(Assignments(c, memos), env, sem), x) == Read(env, x)
  {
    if memos != [] {
      var env1 := env[NameOf(c, memos[0]) := Eval(ExprOf(c, memos[0]), env, sem)];
      RunMemosFrame(c, memos[1..], env1, sem, x);
      var ms := Assignments(c, memos);
      assert ms[0] == (NameOf(c, memos[0]), ExprOf(c, memos[0])) && ms[1..] == Assignments(c, memos[1..]);
    }
  }

  /** Assigning memos in declaration order leaves each of them equal to its expression. */
  lemma {:induction false} RunMemosGood(c: Component, memos: seq<nat>, env: Env, sem: Meaning, i: nat)
    requires WellNamed(c) && EarlierOnly(c) && Ascending(memos) && i in memos && forall k | k in memos :: IsMemo(c, k)
    ensures var env' := RunMemos(Assignments(c, memos), env, sem);
      Read(env', NameOf(c, i)) == Eval(ExprOf(c, i), env', sem)
  {
    hide WellNamed, Vars, Eval;
    var env1 := env[NameOf(c, memos[0]) := Eval(ExprOf(c, memos[0]), env, sem)];
    var rest := memos[1..];
    var ms := Assignments(c, memos);
    assert ms[0] == (NameOf(c, memos[0]), ExprOf(c, memos[0])) && ms[1..] == Assignments(c, rest);
    var env' := RunMemos(Assignments(c, rest), env1, sem);
    assert env' == RunMemos(ms, env, sem);
    if i == memos[0] {
      forall k | k in rest
        ensures NameOf(c, k) != NameOf(c, i)
      {
        assert k in memos;
        if NameOf(c, k) == NameOf(c, i) {
          DistinctNames(c, k, i);
        }
      }
      RunMemosFrame(c, rest, env1, sem, NameOf(c, i));
      forall x | x in Vars(ExprOf(c, i))
        ensures Read(env, x) == Read(env', x)
      {
        EarlierKept(c, memos, i, x);
        RunMemosFrame(c, rest, env1, sem, x);
      }
      EvalFrame(ExprOf(c, i), env, env', sem);
    } else {
      assert i in rest;
      RunMemosGood(c, rest, env1, sem, i);
    }
  }

  // What the first memo of the list mentions is assigned by none of the list.
  lemma EarlierKept(c: Component, memos: seq<nat>, i: nat, x: string)
    requires EarlierOnly(c) && Ascending(memos) && memos != [] && i == memos[0] && IsMemo(c, i)
      && x in Vars(ExprOf(c, i))
    requires forall k | k in memos :: IsMemo(c, k)
    ensures forall k | k in memos :: NameOf(c, k) != x
  {
    forall k | k in memos
      ensures NameOf(c, k) != x
    {
      assert IsMemo(c, k) && (NameOf(c, k) in Vars(ExprOf(c, i)) ==> k < i);
    }
  }

  // ----- The page between events -----

  // Variables, the texts shown, and the updaters waiting for the next flush.
  datatype World = World(env: Env, texts: seq<int>, pending: seq<Setter>, scheduled: bool)

  // Some waiting updater belongs to a state that binding i depends on (or is).
  ghost predicate Stale(g: Graph, pending: seq<Setter>, i: nat) {
    exists k :: 0 <= k < |pending| && Reach(g, i, pending[k].source)
  }

  ghost predicate MemoFresh(c: Component, env: Env, sem: Meaning, i: nat) {
    Read(env, NameOf(c, i)) == Eval(ExprOf(c, i), env, sem)
  }

  ghost predicate TextFresh(c: Component, w: World, t: nat) {
    t < |w.texts| && t < |Texts(c)| && w.texts[t] == Read(w.env, Texts(c)[t])
  }

  // The program the page runs.
  ghost predicate Program(c: Component, nodes: seq<DepNode>, g: Graph) {
    WellNamed(c) && EarlierOnly(c) && GraphOf(c, nodes, g) && Covered(c, g)
  }

  /** Only what a waiting updater will refresh may be out of date. */
  ghost predicate Settled(c: Component, g: Graph, sem: Meaning, w: World) {
    && |w.texts| == |Texts(c)|
    && (forall k | 0 <= k < |w.pending| :: IsSetter(c, g, w.pending[k]))
    && (forall i: nat | IsMemo(c, i) && !Stale(g, w.pending, i) :: MemoFresh(c, w.env, sem, i))
    && (forall i: nat, t: nat | i < |c.bindings| && t < |Texts(c)| && Texts(c)[t] == NameOf(c, i)
      && !Stale(g, w.pending, i) ::
          TextFresh(c, w, t))
  }

  /** Every memo equals its expression and every named text shows its binding. */
  ghost predicate UpToDate(c: Component, sem: Meaning, w: World) {
    && |w.texts| == |Texts(c)|
    && (forall i: nat | IsMemo(c, i) :: MemoFresh(c, w.env, sem, i))
    && (forall t: nat | t < |Texts(c)| :: TextFresh(c, w, t))
  }

  // set_X(v): assign at once, leave the rest to the flush.
  function Set(w: World, s: Setter, v: int): World {
    World(w.env[s.state := v], w.texts, w.pending + [s], true)
  }

  function RunUpdater(w: World, s: Setter, sem: Meaning): World {
    var env := RunMemos(s.memos, w.env, sem);
    w.(env := env, texts := RunTexts(s.texts, w.texts, env))
  }

  function RunAll(w: World, sem: Meaning): World
    decreases |w.pending|
  {
    if w.pending == [] then w else RunAll(RunUpdater(w, w.pending[0], sem).(pending := w.pending[1..]), sem)
  }

  function Flush(w: World, sem: Meaning): World {
    RunAll(w.(scheduled := false), sem)
  }

  // ----- Setting a state -----

  lemma StaleMore(g: Graph, pending: seq<Setter>, s: Setter, i: nat)
    ensures Stale(g, pending + [s], i) <==> Stale(g, pending, i) || Reach(g, i, s.source)
  {
    hide Reach;
    var after := pending + [s];
    if Stale(g, pending, i) {
      var k :| 0 <= k < |pending| && Reach(g, i, pending[k].source);
      assert after[k] == pending[k];
    }
    if Reach(g, i, s.source) {
      assert after[|pending|] == s;
    }
    if Stale(g, after, i) {
      var k :| 0 <= k < |after| && Reach(g, i, after[k].source);
      assert k < |pending| ==> after[k] == pending[k];
    }
  }

  lemma StaleFirst(g: Graph, pending: seq<Setter>, i: nat)
    requires pending != []
    ensures Stale(g, pending, i) <==> Reach(g, i, pending[0].source) || Stale(g, pending[1..], i)
  {
    hide Reach;
    if Stale(g, pending, i) {
      var k :| 0 <= k < |pending| && Reach(g, i, pending[k].source);
      if k > 0 {
        assert pending[1..][k - 1] == pending[k];
      }
    }
    if Stale(g, pending[1..], i) {
      var k :| 0 <= k < |pending| - 1 && Reach(g, i, pending[1..][k].source);
      assert pending[k + 1] == pending[1..][k];
    }
  }

  // A memo depends on every state that something it mentions depends on.
  lemma MentionedDepends(c: Component, nodes: seq<DepNode>, g: Graph, i: nat, k: nat, j: nat)
    requires Program(c, nodes, g) && IsMemo(c, i) && k < |c.bindings| && NameOf(c, k) in Vars(ExprOf(c, i))
    requires j < |c.bindings| && c.bindings[j].qualifier == State && Reach(g, k, j)
    ensures Reach(g, i, j)
  {
    hide WellNamed, EarlierOnly, Mentions;
    var p :| IsPath(g, k, j, p);
    DependsMentions(c, nodes, g, k, j, p);
    MentionEdge(c, i, k);
    hide Reach;
    EdgeThenReach(Mentions(c), i, k, j);
  }

  lemma SetKeeps(c: Component, nodes: seq<DepNode>, g: Graph, sem: Meaning, w: World, s: Setter, v: int)
    requires Program(c, nodes, g) && Settled(c, g, sem, w) && IsSetter(c, g, s)
    ensures Settled(c, g, sem, Set(w, s, v))
  {
    hide Reach, Program, Eval, Vars, SetterFor;
    var w' := Set(w, s, v);
    SetterState(c, g, s);
    forall i: nat | IsMemo(c, i) && !Stale(g, w'.pending, i)
      ensures MemoFresh(c, w'.env, sem, i)
    {
      StaleMore(g, w.pending, s, i);
      forall x | x in Vars(ExprOf(c, i))
        ensures Read(w.env, x) == Read(w'.env, x)
      {
        if x == s.state {
          ReachRefl(g, s.source);
          MentionedDepends(c, nodes, g, i, s.source, s.source);
        }
      }
      ReachRefl(g, i);
      MemoIsNotState(c, nodes, g, i, s);
      EvalFrame(ExprOf(c, i), w.env, w'.env, sem);
    }
    forall i: nat, t: nat | i < |c.bindings| && t < |Texts(c)| && Texts(c)[t] == NameOf(c, i)
      && !Stale(g, w'.pending, i)
      ensures TextFresh(c, w', t)
    {
      StaleMore(g, w.pending, s, i);
      ReachRefl(g, i);
      assert TextFresh(c, w, t);
      if NameOf(c, i) == s.state {
        ProgramNames(c, nodes, g);
        DistinctNames(c, i, s.source);
      }
    }
  }

  lemma SetterState(c: Component, g: Graph, s: Setter)
    requires IsSetter(c, g, s)
    ensures s.source < |c.bindings| && s.state == NameOf(c, s.source) && c.bindings[s.source].qualifier == State
  {
  }

  lemma ProgramNames(c: Component, nodes: seq<DepNode>, g: Graph)
    requires Program(c, nodes, g)
    ensures WellNamed(c)
  {
  }

  lemma MemoIsNotState(c: Component, nodes: seq<DepNode>, g: Graph, i: nat, s: Setter)
    requires Program(c, nodes, g) && IsMemo(c, i) && IsSetter(c, g, s)
    ensures NameOf(c, i) != s.state
  {
    hide Reach, GraphOf, Covered;
    SetterState(c, g, s);
    if NameOf(c, i) == s.state {
      DistinctNames(c, i, s.source);
    }
  }

  // ----- Running the oldest waiting updater -----

  lemma UpdaterMemos(c: Component, nodes: seq<DepNode>, g: Graph, sem: Meaning, w: World, memos: seq<nat>, i: nat)
    requires Program(c, nodes, g) && Settled(c, g, sem, w) && w.pending != [] && SetterFor(c, g, w.pending[0], memos)
    requires IsMemo(c, i) && !Stale(g, w.pending[1..], i)
    ensures MemoFresh(c, RunMemos(w.pending[0].memos, w.env, sem), sem, i)
  {
    hide Reach, Eval, Vars, GraphOf, WellNamed, Covered;
    var s := w.pending[0];
    var env' := RunMemos(s.memos, w.env, sem);
    if i in memos {
      RunMemosGood(c, memos, w.env, sem, i);
    } else {
      StaleFirst(g, w.pending, i);
      assert MemoFresh(c, w.env, sem, i);
      NotAssigned(c, memos, i);
      RunMemosFrame(c, memos, w.env, sem, NameOf(c, i));
      forall x | x in Vars(ExprOf(c, i))
        ensures Read(w.env, x) == Read(env', x)
      {
        forall k | k in memos
          ensures NameOf(c, k) != x
        {
          if NameOf(c, k) == x {
            MentionedDepends(c, nodes, g, i, k, s.source);
          }
        }
        RunMemosFrame(c, memos, w.env, sem, x);
      }
      EvalFrame(ExprOf(c, i), w.env, env', sem);
    }
  }

  lemma NotAssigned(c: Component, memos: seq<nat>, i: nat)
    requires WellNamed(c) && i < |c.bindings| && i !in memos && forall k | k in memos :: IsMemo(c, k)
    ensures forall k | k in memos :: NameOf(c, k) != NameOf(c, i)
  {
    forall k | k in memos
      ensures NameOf(c, k) != NameOf(c, i)
    {
      assert IsMemo(c, k);
      if NameOf(c, k) == NameOf(c, i) {
        DistinctNames(c, k, i);
      }
    }
  }

  lemma UpdaterTexts(c: Component, nodes: seq<DepNode>, g: Graph, sem: Meaning, w: World, memos: seq<nat>, i: nat,
      t: nat)
    requires Program(c, nodes, g) && Settled(c, g, sem, w) && w.pending != [] && SetterFor(c, g, w.pending[0], memos)
    requires i < |c.bindings| && t < |Texts(c)| && Texts(c)[t] == NameOf(c, i) && !Stale(g, w.pending[1..], i)
    ensures TextFresh(c, RunUpdater(w, w.pending[0], sem), t)
  {
    hide Reach, Eval, Vars, GraphOf, WellNamed, EarlierOnly, Assignments, Covered;
    var s, w' := w.pending[0], RunUpdater(w, w.pending[0], sem);
    RunTextsEffect(s.texts, w.texts, w'.env, Texts(c));
    var b := Texts(c)[t];
    if (b, t) !in s.texts {
      StaleFirst(g, w.pending, i);
      ReachRefl(g, i);
      assert i !in memos;
      assert !Reach(g, i, s.source) by { NotShown(c, nodes, g, s, memos, i, t); }
      assert TextFresh(c, w, t);
      NotAssigned(c, memos, i);
      RunMemosFrame(c, memos, w.env, sem, b);
    }
  }

  // A text the updater leaves alone shows a binding that does not depend on its state.
  lemma NotShown(c: Component, nodes: seq<DepNode>, g: Graph, s: Setter, memos: seq<nat>, i: nat, t: nat)
    requires Program(c, nodes, g) && SetterFor(c, g, s, memos)
    requires i < |c.bindings| && t < |Texts(c)| && Texts(c)[t] == NameOf(c, i) && (NameOf(c, i), t) !in s.texts
    ensures !Reach(g, i, s.source)
  {
    hide Reach;
    assert i in memos ==> (NameOf(c, i), t) in s.texts;
    if Reach(g, i, s.source) && i != s.source {
      ReachIsEdgeOrSelf(g, i, s.source);
      OnlyMemosRead(c, nodes, g, i, s.source);
    }
  }

  lemma OnlyMemosRead(c: Component, nodes: seq<DepNode>, g: Graph, i: nat, j: nat)
    requires GraphOf(c, nodes, g) && i < |c.bindings| && ReachPlus(g, i, j)
    ensures IsMemo(c, i)
  {
    hide Reach;
    var k :| Edge(g, i, k) && Reach(g, k, j);
    assert Reads(c, i, k);
  }

  lemma UpdaterKeeps(c: Component, nodes: seq<DepNode>, g: Graph, sem: Meaning, w: World)
    requires Program(c, nodes, g) && Settled(c, g, sem, w) && w.pending != []
    ensures Settled(c, g, sem, RunUpdater(w, w.pending[0], sem).(pending := w.pending[1..]))
  {
    hide Reach, Program, Stale, RunMemos;
    var s := w.pending[0];
    var w' := RunUpdater(w, s, sem).(pending := w.pending[1..]);
    assert IsSetter(c, g, s);
    var memos :| SetterFor(c, g, s, memos);
    assert |w'.texts| == |w.texts| by {
      RunTextsEffect(s.texts, w.texts, w'.env, Texts(c));
    }
    hide SetterFor;
    forall i: nat | IsMemo(c, i) && !Stale(g, w'.pending, i)
      ensures MemoFresh(c, w'.env, sem, i)
    {
      UpdaterMemos(c, nodes, g, sem, w, memos, i);
    }
    forall i: nat, t: nat | i < |c.bindings| && t < |Texts(c)| && Texts(c)[t] == NameOf(c, i)
      && !Stale(g, w'.pending, i)
      ensures TextFresh(c, w', t)
    {
      UpdaterTexts(c, nodes, g, sem, w, memos, i, t);
      SameText(c, RunUpdater(w, s, sem), w', t);
    }
  }

  lemma SameText(c: Component, w: World, w': World, t: nat)
    requires TextFresh(c, w, t) && w'.texts == w.texts && w'.env == w.env
    ensures TextFresh(c, w', t)
  {
  }

  lemma {:induction false} RunAllSettles(c: Component, nodes: seq<DepNode>, g: Graph, sem: Meaning, w: World)
    requires Program(c, nodes, g) && Settled(c, g, sem, w)
    ensures Settled(c, g, sem, RunAll(w, sem)) && RunAll(w, sem).pending == []
    decreases |w.pending|
  {
    hide Program, Settled, RunUpdater;
    if w.pending != [] {
      UpdaterKeeps(c, nodes, g, sem, w);
      RunAllSettles(c, nodes, g, sem, RunUpdater(w, w.pending[0], sem).(pending := w.pending[1..]));
    }
  }

  lemma NothingWaiting(c: Component, g: Graph, sem: Meaning, w: World)
    requires Settled(c, g, sem, w) && w.pending == []
    ensures UpToDate(c, sem, w)
  {
    hide MemoFresh, TextFresh;
    forall t: nat | t < |Texts(c)|
      ensures TextFresh(c, w, t)
    {
      TextNodesAreBindings(c.view, BindingNames(c));
      assert Texts(c)[t] in Texts(c);
      var i :| 0 <= i < |c.bindings| && c.bindings[i].name == Texts(c)[t];
      assert Texts(c)[t] == NameOf(c, i);
    }
  }

  // A run of setter calls, oldest first.
  function SetAll(w: World, calls: seq<(Setter, int)>): World {
    if calls == [] then w else Set(SetAll(w, calls[..|calls| - 1]), calls[|calls| - 1].0, calls[|calls| - 1].1)
  }

  lemma {:induction false} SetAllKeeps(c: Component, nodes: seq<DepNode>, g: Graph, sem: Meaning, w: World,
      calls: seq<(Setter, int)>)
    requires Program(c, nodes, g) && Settled(c, g, sem, w) && forall k | 0 <= k < |calls| :: IsSetter(c, g, calls[k].0)
    ensures Settled(c, g, sem, SetAll(w, calls))
  {
    hide Program, Settled, IsSetter, Set;
    if calls != [] {
      SetAllKeeps(c, nodes, g, sem, w, calls[..|calls| - 1]);
      SetKeeps(c, nodes, g, sem, SetAll(w, calls[..|calls| - 1]), calls[|calls| - 1].0, calls[|calls| - 1].1);
    }
  }

  /** Incremental update agrees with recomputing everything: after any run of setter calls
      followed by one flush, every memo equals its expression on the current states, every
      named text shows its binding's current value, and nothing is left waiting. */
  lemma FlushBringsUpToDate(c: Component, nodes: seq<DepNode>, g: Graph, sem: Meaning, w: World,
      calls: seq<(Setter, int)>)
    requires Program(c, nodes, g) && Settled(c, g, sem, w) && forall k | 0 <= k < |calls| :: IsSetter(c, g, calls[k].0)
    ensures var w' := Flush(SetAll(w, calls), sem);
      UpToDate(c, sem, w') && w'.pending == [] && Settled(c, g, sem, w')
  {
    SetAllKeeps(c, nodes, g, sem, w, calls);
    var ready := SetAll(w, calls).(scheduled := false);
    assert Settled(c, g, sem, ready) by { Unscheduled(c, g, sem, SetAll(w, calls)); }
    hide Settled, Program;
    RunAllSettles(c, nodes, g, sem, ready);
    NothingWaiting(c, g, sem, RunAll(ready, sem));
  }

  lemma Unscheduled(c: Component, g: Graph, sem: Meaning, w: World)
    requires Settled(c, g, sem, w)
    ensures Settled(c, g, sem, w.(scheduled := false))
  {
    hide Stale, MemoFresh, IsSetter;
    forall t: nat | TextFresh(c, w, t)
      ensures TextFresh(c, w.(scheduled := false), t)
    {
    }
  }

  // ----- What was set -----

  // The value last handed to the setter of a state, or the one it had.
  function LastSet(calls: seq<(Setter, int)>, state: string, was: int): int {
    if calls == [] then was
    else if calls[|calls| - 1].0.state == state then calls[|calls| - 1].1
    else LastSet(calls[..|calls| - 1], state, was)
  }

  lemma {:induction false} SetAllSets(w: World, calls: seq<(Setter, int)>, x: string)
    ensures Read(SetAll(w, calls).env, x) == LastSet(calls, x, Read(w.env, x))
    ensures |SetAll(w, calls).pending| == |w.pending| + |calls|
    ensures forall k | 0 <= k < |w.pending| :: SetAll(w, calls).pending[k] == w.pending[k]
    ensures forall k | 0 <= k < |calls| :: SetAll(w, calls).pending[|w.pending| + k] == calls[k].0
  {
    if calls != [] {
      SetAllSets(w, calls[..|calls| - 1], x);
    }
  }

  lemma {:induction false} RunAllKeepsStates(c: Component, g: Graph, w: World, sem: Meaning, j: nat)
    requires WellNamed(c) && j < |c.bindings| && c.bindings[j].qualifier == State
    requires forall k | 0 <= k < |w.pending| :: IsSetter(c, g, w.pending[k])
    ensures Read(RunAll(w, sem).env, NameOf(c, j)) == Read(w.env, NameOf(c, j))
    decreases |w.pending|
  {
    hide WellNamed, IsSetter, RunUpdater, Read;
    if w.pending != [] {
      UpdaterKeepsState(c, g, w, w.pending[0], sem, j);
      RunAllKeepsStates(c, g, RunUpdater(w, w.pending[0], sem).(pending := w.pending[1..]), sem, j);
    }
  }

  lemma UpdaterKeepsState(c: Component, g: Graph, w: World, s: Setter, sem: Meaning, j: nat)
    requires WellNamed(c) && j < |c.bindings| && c.bindings[j].qualifier == State && IsSetter(c, g, s)
    ensures Read(RunUpdater(w, s, sem).env, NameOf(c, j)) == Read(w.env, NameOf(c, j))
  {
    hide Reach, Eval;
    var memos :| SetterFor(c, g, s, memos);
    forall i | i in memos
      ensures NameOf(c, i) != NameOf(c, j)
    {
      assert IsMemo(c, i);
      if NameOf(c, i) == NameOf(c, j) {
        DistinctNames(c, i, j);
      }
    }
    RunMemosFrame(c, memos, w.env, sem, NameOf(c, j));
  }

  /** After any setter calls and one flush, every state has the value it was last set to, or the one
      it had. */
  lemma StatesAreWhatWasSet(c: Component, g: Graph, sem: Meaning, w: World, calls: seq<(Setter, int)>, j: nat)
    requires WellNamed(c) && j < |c.bindings| && c.bindings[j].qualifier == State
    requires (forall k | 0 <= k < |w.pending| :: IsSetter(c, g, w.pending[k]))
      && forall k | 0 <= k < |calls| :: IsSetter(c, g, calls[k].0)
    ensures Read(Flush(SetAll(w, calls), sem).env, NameOf(c, j))
      == LastSet(calls, NameOf(c, j), Read(w.env, NameOf(c, j)))
  {
    hide WellNamed, IsSetter, Read, LastSet, SetAll;
    SetAllSets(w, calls, NameOf(c, j));
    var ready := SetAll(w, calls).(scheduled := false);
    forall k | 0 <= k < |ready.pending|
      ensures IsSetter(c, g, ready.pending[k])
    {
      if k >= |w.pending| {
        assert ready.pending[|w.pending| + (k - |w.pending|)] == calls[k - |w.pending|].0;
      }
    }
    RunAllKeepsStates(c, g, ready, sem, j);
  }

  // ----- Full recomputation -----

  // All memos with an expression, in declaration order.
  function AllMemos(c: Component, n: nat): seq<nat>
    requires n <= |c.bindings|
  {
    if n == 0 then []
    else
      AllMemos(c, n - 1)
        + (if c.bindings[n - 1].qualifier == Memo && c.bindings[n - 1].value.Some? then [n - 1] else [])
  }

  lemma {:induction false} AllMemosFacts(c: Component, n: nat)
    requires n <= |c.bindings|
    ensures Ascending(AllMemos(c, n)) && forall i: nat :: i in AllMemos(c, n) <==> i < n && IsMemo(c, i)
  {
    if n > 0 {
      AllMemosFacts(c, n - 1);
      var front := AllMemos(c, n - 1);
      assert forall k | 0 <= k < |front| :: front[k] in front;
    }
  }

  function Recompute(c: Component, env: Env, sem: Meaning): Env {
    RunMemos(Assignments(c, AllMemos(c, |c.bindings|)), env, sem)
  }

  // Two environments with the same states in which every memo equals its expression agree on memos.
  lemma {:induction false} MemosDetermined(c: Component, sem: Meaning, env: Env, env': Env, i: nat)
    requires EarlierOnly(c) && IsMemo(c, i)
    requires forall k: nat | IsMemo(c, k) :: MemoFresh(c, env, sem, k) && MemoFresh(c, env', sem, k)
    requires forall x | (forall k: nat | IsMemo(c, k) :: NameOf(c, k) != x) :: Read(env, x) == Read(env', x)
    ensures Read(env, NameOf(c, i)) == Read(env', NameOf(c, i))
    decreases i
  {
    hide Eval, Vars, Read;
    forall x | x in Vars(ExprOf(c, i))
      ensures Read(env, x) == Read(env', x)
    {
      if k: nat :| IsMemo(c, k) && NameOf(c, k) == x {
        MemosDetermined(c, sem, env, env', k);
      }
    }
    EvalFrame(ExprOf(c, i), env, env', sem);
  }

  /** Up to date means: throw every memo away, recompute them all from the states, and
      nothing changes. */
  lemma UpToDateIsRecomputed(c: Component, sem: Meaning, w: World, stale: Env, x: string)
    requires WellNamed(c) && EarlierOnly(c) && UpToDate(c, sem, w)
    requires forall y | (forall k: nat | IsMemo(c, k) :: NameOf(c, k) != y) :: Read(stale, y) == Read(w.env, y)
    ensures Read(Recompute(c, stale, sem), x) == Read(w.env, x)
  {
    hide Read, Eval, WellNamed, EarlierOnly;
    AllMemosFacts(c, |c.bindings|);
    var env, all := Recompute(c, stale, sem), AllMemos(c, |c.bindings|);
    forall k: nat | IsMemo(c, k)
      ensures MemoFresh(c, env, sem, k)
    {
      RunMemosGood(c, all, stale, sem, k);
    }
    forall y | (forall k: nat | IsMemo(c, k) :: NameOf(c, k) != y)
      ensures Read(env, y) == Read(w.env, y)
    {
      RunMemosFrame(c, all, stale, sem, y);
    }
    if k: nat :| IsMemo(c, k) && NameOf(c, k) == x {
      MemosDetermined(c, sem, env, w.env, k);
    }
  }

  // ----- Creating the page -----

  // The first n declarations of the create function, run in order.
  function CreateEnv(c: Component, props: Env, sem: Meaning, n: nat): Env
    requires n <= |c.bindings|
  {
    if n == 0 then map[]
    else
      var b, env := c.bindings[n - 1], CreateEnv(c, props, sem, n - 1);
      env[b.name := if b.qualifier == Prop then Read(props, b.name) else if b.value.Some?
        then Eval(b.value.value, env, sem) else 0]
  }

  function Shown(shown: seq<string>, env: Env): (texts: seq<int>)
    ensures |texts| == |shown| && forall t | 0 <= t < |shown| :: texts[t] == Read(env, shown[t])
  {
    seq(|shown|, t requires 0 <= t < |shown| => Read(env, shown[t]))
  }

  function Created(c: Component, props: Env, sem: Meaning): World {
    var env := CreateEnv(c, props, sem, |c.bindings|);
    World(env, Shown(Texts(c), env), [], false)
  }

  lemma {:induction false} CreateKeeps(c: Component, props: Env, sem: Meaning, n: nat, m: nat, x: string)
    requires n <= m <= |c.bindings| && forall k | n <= k < m :: c.bindings[k].name != x
    ensures Read(CreateEnv(c, props, sem, m), x) == Read(CreateEnv(c, props, sem, n), x)
  {
    if n < m {
      CreateKeeps(c, props, sem, n, m - 1, x);
    }
  }

  /** A freshly created page is up to date, so any history of events starts from a settled world. */
  lemma CreatedIsSettled(c: Component, g: Graph, props: Env, sem: Meaning)
    requires WellNamed(c) && EarlierOnly(c)
    ensures Settled(c, g, sem, Created(c, props, sem)) && UpToDate(c, sem, Created(c, props, sem))
  {
    hide Reach, Eval, Vars;
    var n, w := |c.bindings|, Created(c, props, sem);
    forall i: nat | IsMemo(c, i)
      ensures MemoFresh(c, w.env, sem, i)
    {
      var before := CreateEnv(c, props, sem, i);
      forall x | x in Vars(ExprOf(c, i))
        ensures Read(before, x) == Read(w.env, x)
      {
        forall k: nat | i <= k < n
          ensures c.bindings[k].name != x
        {
          assert NameOf(c, k) in Vars(ExprOf(c, i)) ==> k < i;
        }
        CreateKeeps(c, props, sem, i, n, x);
      }
      EvalFrame(ExprOf(c, i), before, w.env, sem);
      CreateKeeps(c, props, sem, i + 1, n, NameOf(c, i));
    }
  }

  /** A new page: a prop has the value handed in, a binding that mentions none declared after it or
      itself the value of its expression, and one without an expression 0. */
  lemma CreatedValues(c: Component, props: Env, sem: Meaning, i: nat)
    requires WellNamed(c) && i < |c.bindings|
    requires forall j | i <= j < |c.bindings| :: c.bindings[j].name !in Vars(ExprOf(c, i))
    ensures var b, env := c.bindings[i], Created(c, props, sem).env;
      && b.name in env
      && (b.qualifier == Prop ==> env[b.name] == Read(props, b.name))
      && (b.qualifier in {State, Memo, Ref} && b.value.Some? ==> env[b.name] == Eval(b.value.value, env, sem))
      && (b.qualifier in {State, Memo, Ref} && b.value.None? ==> env[b.name] == 0)
  {
    hide Eval, Vars;
    var b, n := c.bindings[i], |c.bindings|;
    var before, env := CreateEnv(c, props, sem, i), CreateEnv(c, props, sem, n);
    CreatedStays(c, props, sem, i, n);
    forall x | x in Vars(ExprOf(c, i))
      ensures Read(before, x) == Read(env, x)
    {
      CreateKeeps(c, props, sem, i, n, x);
    }
    EvalFrame(ExprOf(c, i), before, env, sem);
  }

  lemma {:induction false} CreatedStays(c: Component, props: Env, sem: Meaning, i: nat, m: nat)
    requires WellNamed(c) && i < m <= |c.bindings|
    ensures var x := c.bindings[i].name;
      x in CreateEnv(c, props, sem, m) && CreateEnv(c, props, sem, m)[x] == CreateEnv(c, props, sem, i + 1)[x]
  {
    hide Eval;
    if i + 1 < m {
      CreatedStays(c, props, sem, i, m - 1);
    }
  }

  // ----- Generating the setters -----

  // The derived dependents of a state are exactly the memos that depend on it.
  lemma DerivedDependents(c: Component, nodes: seq<DepNode>, g: Graph, j: nat, v: nat)
    requires WellNamed(c) && GraphOf(c, nodes, g) && j < |c.bindings| && c.bindings[j].qualifier == State
    ensures v < |nodes| && v != j && Reach(g, v, j) && nodes[v].kind == Derived <==> IsMemo(c, v) && Reach(g, v, j)
  {
    hide Reach, WellNamed;
    if v < |nodes| && v != j && Reach(g, v, j) && nodes[v].kind == Derived {
      assert v < |c.bindings|;
      ReachIsEdgeOrSelf(g, v, j);
      OnlyMemosRead(c, nodes, g, v, j);
    }
  }

  lemma {:induction false} AssignmentsAppend(c: Component, memos: seq<nat>, i: nat)
    ensures Assignments(c, memos + [i]) == Assignments(c, memos) + [(NameOf(c, i), ExprOf(c, i))]
  {
    if memos == [] {
      assert memos + [i] == [i] && [i][1..] == [];
    } else {
      assert (memos + [i])[1..] == memos[1..] + [i];
      AssignmentsAppend(c, memos[1..], i);
    }
  }

  /** Emits the setter of one state from the dependency graph. */
  method EmitSetter(c: Component, graph: DepGraph, j: nat) returns (s: Setter)
    requires WellNamed(c) && graph.Valid() && GraphOf(c, graph.nodes, graph.edges)
    requires j < |c.bindings| && c.bindings[j].qualifier == State
    ensures IsSetter(c, graph.edges, s) && s.source == j
  {
    hide Reach, WellNamed, GraphOf, Assignments;
    ghost var nodes, g := graph.nodes, graph.edges;
    var state := c.bindings[j].name;
    var id := graph.NodeByName(state);
    StateIsFound(c, nodes, g, j, id);
    var dependents := graph.DependentsOf(id.value);
    var derived: seq<nat> := [];
    for k := 0 to |dependents|
      invariant Distinct(derived)
      invariant forall v: nat :: v in derived <==> v in dependents[..k] && v < |nodes| && nodes[v].kind == Derived
    {
      assert dependents[..k + 1] == dependents[..k] + [dependents[k]];
      assert dependents[k] in dependents && dependents[k] !in dependents[..k];
      if graph.nodes[dependents[k]].kind == Derived {
        DistinctAppend(derived, dependents[k]);
        derived := derived + [dependents[k]];
      }
    }
    assert dependents[..|dependents|] == dependents;
    var memos := Sorted(Elements(derived));
    forall i: nat
      ensures i in memos <==> IsMemo(c, i) && Reach(g, i, j)
    {
      DerivedDependents(c, nodes, g, j, i);
    }
    var body: seq<(string, Expr)> := [];
    var affected := {state};
    assert memos[..0] == [] && Assignments(c, []) == [] by { NoAssignments(c); }
    for k := 0 to |memos|
      invariant body == Assignments(c, memos[..k])
      invariant forall b :: b in affected <==> b == state || exists i :: i in memos[..k] && b == NameOf(c, i)
    {
      assert memos[k] in memos && IsMemo(c, memos[k]);
      assert memos[..k + 1] == memos[..k] + [memos[k]];
      AssignmentsAppend(c, memos[..k], memos[k]);
      body := body + [(NameOf(c, memos[k]), ExprOf(c, memos[k]))];
      affected := affected + {NameOf(c, memos[k])};
    }
    assert memos[..|memos|] == memos;
    var texts := AffectedTexts(Texts(c), affected);
    s := Setter(j, state, body, texts);
    assert SetterFor(c, g, s, memos);
  }

  lemma NoAssignments(c: Component)
    ensures Assignments(c, []) == []
  {
  }

  lemma StateIsFound(c: Component, nodes: seq<DepNode>, g: Graph, j: nat, id: Option<nat>)
    requires WellNamed(c) && GraphOf(c, nodes, g) && j < |c.bindings|
    requires id.Some? ==> id.value < |nodes| && nodes[id.value].name == c.bindings[j].name
    requires forall i | 0 <= i < |nodes| && (id.None? || i < id.value) :: nodes[i].name != c.bindings[j].name
    ensures id == Some(j) && |nodes| == |g|
  {
    assert nodes[j].name == c.bindings[j].name;
    assert nodes[id.value].name == c.bindings[id.value].name;
  }

  // The text nodes that show one of the affected bindings.
  method AffectedTexts(shown: seq<string>, affected: set<string>) returns (texts: seq<(string, nat)>)
    ensures forall b, t: nat :: (b, t) in texts <==> t < |shown| && shown[t] == b && b in affected
  {
    texts := [];
    for t := 0 to |shown|
      invariant forall b, u: nat :: (b, u) in texts <==> u < t && shown[u] == b && b in affected
    {
      if shown[t] in affected {
        texts := texts + [(shown[t], t)];
      }
    }
  }

  // ----- The page as it runs -----

  class Page {
    const c: Component
    const sem: Meaning
    var env: Env
    var texts: seq<int>
    var pending: seq<Setter>
    var scheduled: bool

    function W(): World
      reads this
    {
      World(env, texts, pending, scheduled)
    }

    constructor (component: Component, props: Env, meaning: Meaning)
      ensures c == component && sem == meaning && W() == Created(component, props, meaning)
    {
      c, sem := component, meaning;
      var e: Env := map[];
      for i := 0 to |component.bindings|
        invariant e == CreateEnv(component, props, meaning, i)
      {
        var b := component.bindings[i];
        var v := if b.qualifier == Prop then Read(props, b.name)
                 else if b.value.Some? then Eval(b.value.value, e, meaning) else 0;
        e := e[b.name := v];
      }
      env, texts, pending, scheduled := e, Shown(Texts(component), e), [], false;
    }

    // The generated set_X: assign, then hand the updater to the scheduler.
    method SetState(s: Setter, v: int)
      modifies this
      ensures W() == Set(old(W()), s, v)
    {
      env := env[s.state := v];
      pending := pending + [s];
      if !scheduled {
        scheduled := true;
      }
    }

    method RunUpdaterOf(s: Setter)
      modifies this`env, this`texts
      ensures W() == RunUpdater(old(W()), s, sem)
    {
      for k := 0 to |s.memos|
        invariant RunMemos(s.memos[k..], env, sem) == RunMemos(s.memos, old(env), sem)
        invariant texts == old(texts)
      {
        assert s.memos[k..][0] == s.memos[k] && s.memos[k..][1..] == s.memos[k + 1..];
        env := env[s.memos[k].0 := Eval(s.memos[k].1, env, sem)];
      }
      for k := 0 to |s.texts|
        invariant RunTexts(s.texts[k..], texts, env) == RunTexts(s.texts, old(texts), env)
        invariant env == RunMemos(s.memos, old(env), sem)
      {
        assert s.texts[k..][0] == s.texts[k] && s.texts[k..][1..] == s.texts[k + 1..];
        var (b, t) := s.texts[k];
        if t < |texts| {
          texts := texts[t := Read(env, b)];
        }
      }
    }

    // __flush: run the waiting updaters in the order they were added, then clear the queue.
    method FlushPending()
      modifies this
      ensures W() == Flush(old(W()), sem)
    {
      scheduled := false;
      ghost var start := W();
      for k := 0 to |pending|
        invariant pending == old(pending) && !scheduled
        invariant RunAll(W().(pending := pending[k..]), sem) == RunAll(start, sem)
      {
        assert pending[k..][0] == pending[k] && pending[k..][1..] == pending[k + 1..];
        RunUpdaterOf(pending[k]);
      }
      pending := [];
    }
  }
}
