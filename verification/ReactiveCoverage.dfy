/** When incremental update is right: exactly when the dependency graph covers every mention. */
module ReactiveCoverage {
  import opened Names
  import opened Finite
  import opened Graphs
  import opened Reactivity
  import opened Component
  import opened ReactiveUpdate

  // A meaning under which every operator grows with each operand.
  function Sum(vs: seq<int>): int {
    if vs == [] then 0 else vs[0] + Sum(vs[1..])
  }

  const Adding: Meaning := (op, vs) => Sum(vs)

  lemma {:induction false} EvalGrows(e: Expr, env: Env, env': Env)
    requires forall x | x in Vars(e) :: Read(env, x) <= Read(env', x)
    ensures Eval(e, env, Adding) <= Eval(e, env', Adding)
    ensures (exists x :: x in Vars(e) && Read(env, x) < Read(env', x)) ==> Eval(e, env, Adding) < Eval(e, env', Adding)
    decreases e, 1
  {
    hide Read;
    match e
    case Literal(_) =>
    case Variable(_) =>
    case Node(_, parts) => AllGrow(parts, env, env');
    case EnumInit(_, values) => AllGrow(values, env, env');
  }

  lemma {:induction false} AllGrow(es: seq<Expr>, env: Env, env': Env)
    requires forall x | x in VarsOfAll(es) :: Read(env, x) <= Read(env', x)
    ensures Sum(EvalAll(es, env, Adding)) <= Sum(EvalAll(es, env', Adding))
    ensures (exists x :: x in VarsOfAll(es) && Read(env, x) < Read(env', x)) ==>
      Sum(EvalAll(es, env, Adding)) < Sum(EvalAll(es, env', Adding))
    decreases es, 0
  {
    hide Read;
    if es != [] {
      EvalGrows(es[0], env, env');
      AllGrow(es[1..], env, env');
      SumStep(es, env);
      SumStep(es, env');
    }
  }

  lemma SumStep(es: seq<Expr>, env: Env)
    requires es != []
    ensures Sum(EvalAll(es, env, Adding)) == Eval(es[0], env, Adding) + Sum(EvalAll(es[1..], env, Adding))
  {
    hide Eval;
    var head, tail := Eval(es[0], env, Adding), EvalAll(es[1..], env, Adding);
    assert ([head] + tail)[1..] == tail;
  }

  // ----- Every state has a setter -----

  ghost function DependentMemos(c: Component, g: Graph, j: nat, n: nat): seq<nat> {
    if n == 0 then []
    else DependentMemos(c, g, j, n - 1) + (if IsMemo(c, n - 1) && Reach(g, n - 1, j) then [n - 1] else [])
  }

  lemma {:induction false} DependentMemosAre(c: Component, g: Graph, j: nat, n: nat)
    ensures Ascending(DependentMemos(c, g, j, n))
    ensures forall i: nat :: i in DependentMemos(c, g, j, n) <==> i < n && IsMemo(c, i) && Reach(g, i, j)
  {
    hide Reach, IsMemo;
    if n > 0 {
      DependentMemosAre(c, g, j, n - 1);
      var front := DependentMemos(c, g, j, n - 1);
      assert forall k | 0 <= k < |front| :: front[k] in front;
    }
  }

  // b is the state or one of the memos listed.
  ghost predicate Refreshed(c: Component, state: string, memos: seq<nat>, b: string) {
    b == state || exists i :: i in memos && b == NameOf(c, i)
  }

  ghost function ShownBy(c: Component, state: string, memos: seq<nat>, n: nat): seq<(string, nat)>
    requires n <= |Texts(c)|
  {
    if n == 0 then []
    else
      var b := Texts(c)[n - 1];
      ShownBy(c, state, memos, n - 1) + (if Refreshed(c, state, memos, b) then [(b, n - 1)] else [])
  }

  lemma {:induction false} ShownByAre(c: Component, state: string, memos: seq<nat>, n: nat)
    requires n <= |Texts(c)|
    ensures forall b, t: nat :: (b, t) in ShownBy(c, state, memos, n) <==>
                                t < n && Texts(c)[t] == b && Refreshed(c, state, memos, b)
  {
    hide Texts, Refreshed;
    if n > 0 {
      ShownByAre(c, state, memos, n - 1);
    }
  }

  lemma SetterExists(c: Component, g: Graph, j: nat) returns (s: Setter, memos: seq<nat>)
    requires j < |c.bindings| && c.bindings[j].qualifier == State
    ensures SetterFor(c, g, s, memos) && s.source == j
  {
    hide Reach;
    memos := DependentMemos(c, g, j, |c.bindings|);
    DependentMemosAre(c, g, j, |c.bindings|);
    ShownByAre(c, NameOf(c, j), memos, |Texts(c)|);
    s := Setter(j, NameOf(c, j), Assignments(c, memos), ShownBy(c, NameOf(c, j), memos, |Texts(c)|));
  }

  // ----- A mention the graph misses leaves a memo stale -----

  lemma MentionersAreMemos(c: Component, k: nat, j: nat)
    requires Reach(Mentions(c), k, j) && k != j
    ensures IsMemo(c, k)
  {
    hide Reach;
    ReachIsEdgeOrSelf(Mentions(c), k, j);
    var m :| Edge(Mentions(c), k, m) && Reach(Mentions(c), m, j);
    MentionEdge(c, k, m);
  }

  // If memos were fresh before and after state j grew, every memo that mentions it grew.
  lemma {:induction false} MemosGrow(c: Component, env: Env, env': Env, j: nat, m: nat)
    requires WellNamed(c) && EarlierOnly(c) && j < |c.bindings| && c.bindings[j].qualifier == State && IsMemo(c, m)
    requires forall k: nat | IsMemo(c, k) :: MemoFresh(c, env, Adding, k) && MemoFresh(c, env', Adding, k)
    requires forall x | x != NameOf(c, j) && (forall k: nat | IsMemo(c, k) :: NameOf(c, k) != x) ::
      Read(env, x) == Read(env', x)
    requires Read(env, NameOf(c, j)) < Read(env', NameOf(c, j))
    ensures Read(env, NameOf(c, m)) <= Read(env', NameOf(c, m))
    ensures Reach(Mentions(c), m, j) ==> Read(env, NameOf(c, m)) < Read(env', NameOf(c, m))
    decreases m
  {
    hide Reach, Eval, Vars, Read, Mentions, WellNamed;
    var e := ExprOf(c, m);
    forall x | x in Vars(e)
      ensures Read(env, x) <= Read(env', x)
    {
      if k: nat :| IsMemo(c, k) && NameOf(c, k) == x {
        MemosGrow(c, env, env', j, k);
      }
    }
    EvalGrows(e, env, env');
    if Reach(Mentions(c), m, j) {
      ReachIsEdgeOrSelf(Mentions(c), m, j);
      var k :| Edge(Mentions(c), m, k) && Reach(Mentions(c), k, j);
      MentionEdge(c, m, k);
      if k != j {
        MentionersAreMemos(c, k, j);
        MemosGrow(c, env, env', j, k);
      }
      assert NameOf(c, k) in Vars(e) && Read(env, NameOf(c, k)) < Read(env', NameOf(c, k));
    }
  }

  lemma MissedMentionIsStale(c: Component, nodes: seq<DepNode>, g: Graph, i: nat, s: Setter, memos: seq<nat>)
    requires WellNamed(c) && EarlierOnly(c) && GraphOf(c, nodes, g)
    requires SetterFor(c, g, s, memos) && IsMemo(c, i) && Reach(Mentions(c), i, s.source) && !Reach(g, i, s.source)
    ensures var w := Created(c, map[], Adding);
      !UpToDate(c, Adding, Flush(Set(w, s, Read(w.env, s.state) + 1), Adding))
  {
    hide Reach, Eval, Vars, WellNamed, GraphOf, Mentions, EarlierOnly, TextFresh;
    var w := Created(c, map[], Adding);
    var w1 := Set(w, s, Read(w.env, s.state) + 1);
    var env' := RunMemos(s.memos, w1.env, Adding);
    FlushOfOne(w, s, Read(w.env, s.state) + 1, Adding);
    if UpToDate(c, Adding, Flush(w1, Adding)) {
      CreatedIsSettled(c, g, map[], Adding);
      NotAssigned(c, memos, i);
      RunMemosFrame(c, memos, w1.env, Adding, NameOf(c, i));
      assert forall k | k in memos :: IsMemo(c, k);
      StateIsNoMemo(c, s.source);
      RunMemosFrame(c, memos, w1.env, Adding, s.state);
      forall x | x != s.state && (forall k: nat | IsMemo(c, k) :: NameOf(c, k) != x)
        ensures Read(w.env, x) == Read(env', x)
      {
        RunMemosFrame(c, memos, w1.env, Adding, x);
      }
      MemosGrow(c, w.env, env', s.source, i);
    }
  }

  lemma StateIsNoMemo(c: Component, j: nat)
    requires WellNamed(c) && j < |c.bindings| && c.bindings[j].qualifier == State
    ensures forall k: nat | IsMemo(c, k) :: NameOf(c, k) != NameOf(c, j)
  {
    forall k: nat | IsMemo(c, k)
      ensures NameOf(c, k) != NameOf(c, j)
    {
      if NameOf(c, k) == NameOf(c, j) {
        DistinctNames(c, k, j);
      }
    }
  }

  lemma FlushOfOne(w: World, s: Setter, v: int, sem: Meaning)
    requires w.pending == []
    ensures Flush(Set(w, s, v), sem).env == RunMemos(s.memos, w.env[s.state := v], sem)
  {
    hide RunMemos, RunTexts;
    var w1 := Set(w, s, v).(scheduled := false);
    assert w1.pending == [s] && w1.pending[1..] == [];
    var w2 := RunUpdater(w1, s, sem).(pending := []);
    assert RunAll(w1, sem) == RunAll(w2, sem);
    assert RunAll(w2, sem) == w2;
  }

  /** Whatever the operators mean, whatever the props, after any run of setter calls and one flush. */
  ghost predicate AlwaysUpToDate(c: Component, g: Graph) {
    forall sem: Meaning, props: Env, calls: seq<(Setter, int)> {:trigger SetAll(Created(c, props, sem), calls)} |
      forall k | 0 <= k < |calls| :: IsSetter(c, g, calls[k].0) ::
      UpToDate(c, sem, Flush(SetAll(Created(c, props, sem), calls), sem))
  }

  /** Incremental update always agrees with recomputing everything if and only if every state
      a memo mentions is one it depends on in the graph. */
  lemma UpToDateExactlyWhenCovered(c: Component, nodes: seq<DepNode>, g: Graph)
    requires WellNamed(c) && EarlierOnly(c) && GraphOf(c, nodes, g)
    ensures AlwaysUpToDate(c, g) <==> Covered(c, g)
  {
    hide Reach, Mentions, WellNamed, EarlierOnly, GraphOf, UpToDate, IsSetter, SetterFor, Flush, Set;
    if Covered(c, g) {
      forall sem: Meaning, props: Env, calls: seq<(Setter, int)> | forall k | 0 <= k < |calls| ::
        IsSetter(c, g, calls[k].0)
        ensures UpToDate(c, sem, Flush(SetAll(Created(c, props, sem), calls), sem))
      {
        CreatedIsSettled(c, g, props, sem);
        FlushBringsUpToDate(c, nodes, g, sem, Created(c, props, sem), calls);
      }
    } else {
      var i: nat, j: nat :| IsMemo(c, i) && j < |c.bindings| && c.bindings[j].qualifier == State
                            && Reach(Mentions(c), i, j) && !Reach(g, i, j);
      var s, memos := SetterExists(c, g, j);
      MissedMentionIsStale(c, nodes, g, i, s, memos);
      var w := Created(c, map[], Adding);
      var calls := [(s, Read(w.env, s.state) + 1)];
      assert IsSetter(c, g, s) by { SetterIsSetter(c, g, s, memos); }
      OneCall(w, s, Read(w.env, s.state) + 1);
      assert !UpToDate(c, Adding, Flush(SetAll(w, calls), Adding));
    }
  }

  lemma SetterIsSetter(c: Component, g: Graph, s: Setter, memos: seq<nat>)
    requires SetterFor(c, g, s, memos)
    ensures IsSetter(c, g, s)
  {
  }

  lemma OneCall(w: World, s: Setter, v: int)
    ensures SetAll(w, [(s, v)]) == Set(w, s, v)
  {
    var calls := [(s, v)];
    assert calls[..0] == [];
    assert SetAll(w, calls[..0]) == w;
  }

  lemma NoEdgeNoReach(g: Graph, u: nat, v: nat)
    requires u != v && forall k: nat :: !Edge(g, u, k)
    ensures !Reach(g, u, v)
  {
    hide Reach;
    if Reach(g, u, v) {
      ReachIsEdgeOrSelf(g, u, v);
    }
  }

  /** The gap: an enum constructor's argument is not collected, so a memo that mentions its
      state only there is never refreshed. */
  lemma EnumArgumentIsMissed(c: Component, nodes: seq<DepNode>, g: Graph)
    requires c == Component("C",
      [Binding(State, "x", Some(Literal(0))), Binding(Memo, "m", Some(EnumInit("Some", [Variable("x")])))], [])
    requires GraphOf(c, nodes, g)
    ensures WellNamed(c) && EarlierOnly(c) && !Covered(c, g) && !AlwaysUpToDate(c, g)
  {
    var x, m := c.bindings[0], c.bindings[1];
    assert x.name == "x" && m.name == "m" && "x"[0] != "m"[0];
    assert Vars(ExprOf(c, 1)) == {"x"} by {
      var args := [Variable("x")];
      assert args[1..] == [];
      assert VarsOfAll(args[1..]) == {};
    }
    assert EarlierOnly(c);
    assert ExprRefs(ExprOf(c, 1)) == [];
    assert WellNamed(c);
    MentionEdge(c, 1, 0);
    ReachEdge(Mentions(c), 1, 0);
    NoEdgeNoReach(g, 1, 0);
    UpToDateExactlyWhenCovered(c, nodes, g);
  }
}
