/** Where an expression mentions a name, told by the path to the mention; and what that makes of
    the dependency graph. */
module References {
  import opened Names
  import opened Graphs
  import opened Reactivity
  import opened Component
  import opened ReactiveUpdate
  import opened ReactiveCoverage

  /** The part of an expression at a path of operand positions; `inEnums` says whether the path may
      lead through the arguments of an enum constructor. */
  function PartAt(e: Expr, path: seq<nat>, inEnums: bool): Option<Expr>
    decreases |path|
  {
    if path == [] then Some(e)
    else if e.Node? && path[0] < |e.parts| then PartAt(e.parts[path[0]], path[1..], inEnums)
    else if inEnums && e.EnumInit? && path[0] < |e.values| then PartAt(e.values[path[0]], path[1..], inEnums)
    else None
  }

  ghost predicate MentionsAt(e: Expr, path: seq<nat>, inEnums: bool, x: string) {
    PartAt(e, path, inEnums) == Some(Variable(x))
  }

  // No enum constructor anywhere.
  ghost predicate EnumFree(e: Expr) {
    forall path {:trigger PartAt(e, path, true)} | PartAt(e, path, true).Some? :: !PartAt(e, path, true).value.EnumInit?
  }

  lemma PartOfOperand(e: Expr, i: nat, path: seq<nat>, inEnums: bool)
    ensures e.Node? && i < |e.parts| ==> PartAt(e, [i] + path, inEnums) == PartAt(e.parts[i], path, inEnums)
    ensures inEnums && e.EnumInit? && i < |e.values|
      ==> PartAt(e, [i] + path, inEnums) == PartAt(e.values[i], path, inEnums)
  {
    assert ([i] + path)[1..] == path;
  }

  /** Collected are exactly the names some path of operands leads to. */
  lemma {:induction false} RefsByPaths(e: Expr, x: string)
    ensures x in ExprRefs(e) <==> exists path :: MentionsAt(e, path, false, x)
    decreases e, 1
  {
    match e
    case Node(_, parts) =>
      AllRefsByPaths(parts, x);
      if x in ExprRefs(e) {
        var i, path :| 0 <= i < |parts| && MentionsAt(parts[i], path, false, x);
        PartOfOperand(e, i, path, false);
        assert MentionsAt(e, [i] + path, false, x);
      }
      if path :| MentionsAt(e, path, false, x) {
        assert MentionsAt(parts[path[0]], path[1..], false, x);
      }
    case Variable(_) =>
      assert PartAt(e, [], false) == Some(e);
      assert MentionsAt(e, [], false, e.name);
    case _ =>
  }

  lemma {:induction false} AllRefsByPaths(es: seq<Expr>, x: string)
    ensures x in ExprsRefs(es) <==> exists i, path :: 0 <= i < |es| && MentionsAt(es[i], path, false, x)
    decreases es, 0
  {
    hide MentionsAt;
    if es != [] {
      RefsByPaths(es[0], x);
      AllRefsByPaths(es[1..], x);
      if x in ExprsRefs(es[1..]) {
        var i, path :| 0 <= i < |es[1..]| && MentionsAt(es[1..][i], path, false, x);
        assert MentionsAt(es[i + 1], path, false, x);
      }
      if i, path :| 0 <= i < |es| && MentionsAt(es[i], path, false, x) {
        assert i == 0 || MentionsAt(es[1..][i - 1], path, false, x);
      }
    }
  }

  /** Mentioned are exactly the names some path leads to, enum constructors included. */
  lemma {:induction false} VarsByPaths(e: Expr, x: string)
    ensures x in Vars(e) <==> exists path :: MentionsAt(e, path, true, x)
    decreases e, 1
  {
    match e
    case Variable(_) =>
      assert PartAt(e, [], true) == Some(e);
      assert MentionsAt(e, [], true, e.name);
    case Literal(_) =>
    case Node(_, parts) =>
      AllVarsByPaths(parts, x);
      OperandMentions(e, parts, x);
    case EnumInit(_, values) =>
      AllVarsByPaths(values, x);
      OperandMentions(e, values, x);
  }

  // Mentions of an operator or a constructor are those of its operands.
  lemma OperandMentions(e: Expr, parts: seq<Expr>, x: string)
    requires (e.Node? && parts == e.parts) || (e.EnumInit? && parts == e.values)
    ensures (exists path :: MentionsAt(e, path, true, x))
      <==> exists i, path :: 0 <= i < |parts| && MentionsAt(parts[i], path, true, x)
  {
    if i, path :| 0 <= i < |parts| && MentionsAt(parts[i], path, true, x) {
      PartOfOperand(e, i, path, true);
      assert MentionsAt(e, [i] + path, true, x);
    }
    if path :| MentionsAt(e, path, true, x) {
      assert MentionsAt(parts[path[0]], path[1..], true, x);
    }
  }

  lemma {:induction false} AllVarsByPaths(es: seq<Expr>, x: string)
    ensures x in VarsOfAll(es) <==> exists i, path :: 0 <= i < |es| && MentionsAt(es[i], path, true, x)
    decreases es, 0
  {
    hide MentionsAt;
    if es != [] {
      VarsByPaths(es[0], x);
      AllVarsByPaths(es[1..], x);
      if x in VarsOfAll(es[1..]) {
        var i, path :| 0 <= i < |es[1..]| && MentionsAt(es[1..][i], path, true, x);
        assert MentionsAt(es[i + 1], path, true, x);
      }
      if i, path :| 0 <= i < |es| && MentionsAt(es[i], path, true, x) {
        assert i == 0 || MentionsAt(es[1..][i - 1], path, true, x);
      }
    }
  }

  lemma {:induction false} SamePart(e: Expr, path: seq<nat>)
    requires EnumFree(e)
    ensures PartAt(e, path, true) == PartAt(e, path, false)
    decreases |path|
  {
    if path != [] {
      assert PartAt(e, [], true) == Some(e);
      if e.Node? && path[0] < |e.parts| {
        OperandIsEnumFree(e, path[0]);
        SamePart(e.parts[path[0]], path[1..]);
      }
    }
  }

  lemma OperandIsEnumFree(e: Expr, i: nat)
    requires EnumFree(e) && e.Node? && i < |e.parts|
    ensures EnumFree(e.parts[i])
  {
    forall path | PartAt(e.parts[i], path, true).Some?
      ensures !PartAt(e.parts[i], path, true).value.EnumInit?
    {
      PartOfOperand(e, i, path, true);
      assert PartAt(e, [i] + path, true).Some?;
    }
  }

  /** Without enum constructors everything mentioned is collected. */
  lemma EnumFreeIsCollected(e: Expr, x: string)
    requires EnumFree(e)
    ensures x in ExprRefs(e) <==> x in Vars(e)
  {
    hide EnumFree;
    RefsByPaths(e, x);
    VarsByPaths(e, x);
    forall path
      ensures MentionsAt(e, path, true, x) <==> MentionsAt(e, path, false, x)
    {
      SamePart(e, path);
    }
  }

  // ----- Components without enum constructors are covered -----

  ghost predicate MemosEnumFree(c: Component) {
    forall i: nat | IsMemo(c, i) :: EnumFree(ExprOf(c, i))
  }

  lemma {:induction false} MentionPathDepends(c: Component, nodes: seq<DepNode>, g: Graph, i: nat, j: nat, p: seq<nat>)
    requires GraphOf(c, nodes, g) && MemosEnumFree(c) && IsPath(Mentions(c), i, j, p) && i < |c.bindings|
    ensures Reach(g, i, j)
    decreases |p|
  {
    hide Reach, Mentions, EnumFree;
    if |p| == 1 {
      ReachRefl(g, i);
    } else {
      assert Edge(Mentions(c), i, p[1]);
      MentionEdge(c, i, p[1]);
      EnumFreeIsCollected(ExprOf(c, i), NameOf(c, p[1]));
      assert Reads(c, i, p[1]);
      MentionPathDepends(c, nodes, g, p[1], j, p[1..]);
      EdgeThenReach(g, i, p[1], j);
    }
  }

  /** A component whose memos hold no enum constructor is covered by its graph, so incremental
      update always leaves it as recomputing everything would. */
  lemma EnumFreeIsUpToDate(c: Component, nodes: seq<DepNode>, g: Graph)
    requires WellNamed(c) && EarlierOnly(c) && GraphOf(c, nodes, g) && MemosEnumFree(c)
    ensures Covered(c, g) && AlwaysUpToDate(c, g)
  {
    forall i, j: nat | IsMemo(c, i) && j < |c.bindings| && c.bindings[j].qualifier == State && Reach(Mentions(c), i, j)
      ensures Reach(g, i, j)
    {
      var p :| IsPath(Mentions(c), i, j, p);
      MentionPathDepends(c, nodes, g, i, j, p);
    }
    hide Reach, Mentions, WellNamed, EarlierOnly, GraphOf, AlwaysUpToDate;
    UpToDateExactlyWhenCovered(c, nodes, g);
  }
}
