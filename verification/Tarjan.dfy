/** Tarjan's strongly connected components, as run over the reactive bindings and over the
    live heap objects: the search state, what every step keeps, and the object that runs it. */
module Tarjan {
  import opened Names
  import opened Graphs
  import opened Finite

  /** Discovery numbers, the node stack (bottom first), the components found so far, in
      order, and the next number. */
  datatype Search = Search(index: seq<Option<nat>>, stack: seq<nat>, found: seq<seq<nat>>, counter: nat)

  predicate Visited(s: Search, x: nat) {
    x < |s.index| && s.index[x].Some?
  }

  // The discovery number of a visited node.
  function Num(s: Search, x: nat): nat {
    if Visited(s, x) then s.index[x].value else 0
  }

  // x is in one of the lists.
  ghost predicate Listed(found: seq<seq<nat>>, x: nat) {
    exists i :: 0 <= i < |found| && x in found[i]
  }

  ghost predicate Found(s: Search, x: nat) {
    Listed(s.found, x)
  }

  // ----- What holds between any two steps -----

  ghost predicate Numbered(g: Graph, s: Search) {
    && |s.index| == |g|
    && (forall x | Visited(s, x) :: Num(s, x) < s.counter)
    && (forall x, y | Visited(s, x) && Visited(s, y) && Num(s, x) == Num(s, y) :: x == y)
    && (forall x | x in s.stack :: Visited(s, x))
    && (forall i, j | 0 <= i < j < |s.stack| :: Num(s, s.stack[i]) < Num(s, s.stack[j]))
    && (forall x :: Visited(s, x) <==> x in s.stack || Found(s, x))
    && (forall x | x in s.stack :: !Found(s, x))
  }

  // The components found are components, pairwise disjoint, dependencies first.
  ghost predicate FoundGood(g: Graph, found: seq<seq<nat>>) {
    && (forall i | 0 <= i < |found| :: IsScc(g, Elements(found[i])) && Distinct(found[i]))
    && (forall i, j, x | 0 <= i < |found| && 0 <= j < |found| && x in found[i] && x in found[j] :: i == j)
    && (forall i, a, b | 0 <= i < |found| && a in found[i] && Edge(g, a, b) :: exists j :: 0 <= j <= i && b in found[j])
  }

  // Earlier nodes of the stack reach later ones.
  ghost predicate StackReaches(g: Graph, s: Search) {
    forall x, y | x in s.stack && y in s.stack && Num(s, x) <= Num(s, y) :: Reach(g, x, y)
  }

  // A node whose call has returned has seen all its successors.
  ghost predicate BlackSeen(g: Graph, s: Search, gray: set<nat>) {
    forall x, y | x in s.stack && x !in gray && Edge(g, x, y) :: Visited(s, y)
  }

  ghost predicate HasRoot(g: Graph, s: Search, gray: set<nat>, y: nat) {
    exists x :: x in gray && Num(s, x) <= Num(s, y) && Reach(g, y, x)
  }

  // Every node of the stack reaches an earlier one whose call is still running.
  ghost predicate Rooted(g: Graph, s: Search, gray: set<nat>) {
    && (forall x | x in gray :: x in s.stack)
    && (forall y {:trigger HasRoot(g, s, gray, y)} | y in s.stack :: HasRoot(g, s, gray, y))
  }

  ghost predicate Inv(g: Graph, s: Search, gray: set<nat>) {
    Valid(g) && Numbered(g, s) && FoundGood(g, s.found) && StackReaches(g, s) && BlackSeen(g, s, gray)
      && Rooted(g, s, gray)
  }

  lemma RootOf(g: Graph, s: Search, gray: set<nat>, y: nat) returns (x: nat)
    requires Rooted(g, s, gray) && y in s.stack
    ensures x in gray && x in s.stack && Num(s, x) <= Num(s, y) && Reach(g, y, x)
  {
    assert HasRoot(g, s, gray, y);
    x :| x in gray && Num(s, x) <= Num(s, y) && Reach(g, y, x);
  }

  // ----- Entering a node -----

  function Entered(s: Search, v: nat): Search {
    if v < |s.index| then
      s.(index := s.index[v := Some(s.counter)], stack := s.stack + [v], counter := s.counter + 1)
    else s
  }

  ghost predicate CanEnter(g: Graph, s: Search, gray: set<nat>, v: nat) {
    v < |g| && !Visited(s, v) && (forall x | x in gray :: Reach(g, x, v)) && Inv(g, s, gray)
  }

  lemma StackReachesNew(g: Graph, s: Search, gray: set<nat>, v: nat, x: nat)
    requires CanEnter(g, s, gray, v) && x in s.stack
    ensures Reach(g, x, v)
  {
    hide Rooted, FoundGood, StackReaches, BlackSeen, Numbered, Reach, HasRoot;
    var z := RootOf(g, s, gray, x);
    ReachTrans(g, x, z, v);
  }

  lemma EnterNumbered(g: Graph, s: Search, v: nat)
    requires Numbered(g, s) && v < |g| && !Visited(s, v)
    ensures Numbered(g, Entered(s, v))
    ensures forall x :: Visited(Entered(s, v), x) <==> x == v || Visited(s, x)
    ensures forall x :: Num(Entered(s, v), x) == if x == v then s.counter else Num(s, x)
    ensures forall x :: x in Entered(s, v).stack <==> x in s.stack || x == v
    ensures v !in s.stack && Entered(s, v).found == s.found
  {
    var s' := Entered(s, v);
    assert forall x :: Visited(s', x) <==> x == v || Visited(s, x);
    assert forall x :: Found(s', x) <==> Found(s, x);
    assert forall x :: x in s'.stack <==> x in s.stack || x == v by {
      assert s'.stack[|s.stack|] == v;
    }
  }

  lemma EnterStackReaches(g: Graph, s: Search, gray: set<nat>, v: nat)
    requires CanEnter(g, s, gray, v)
    ensures StackReaches(g, Entered(s, v))
  {
    var s' := Entered(s, v);
    assert Numbered(g, s);
    EnterNumbered(g, s, v);
    assert forall x | x in s.stack :: Visited(s, x) && Num(s, x) < s.counter;
    hide Reach, FoundGood, Numbered, BlackSeen, Rooted, Found, Visited, Num, Entered;
    forall x, y | x in s'.stack && y in s'.stack && Num(s', x) <= Num(s', y)
      ensures Reach(g, x, y)
    {
      if y == v {
        if x == v {
          ReachRefl(g, v);
        } else {
          StackReachesNew(g, s, gray, v, x);
        }
      } else {
        assert y in s.stack && x != v;
      }
    }
  }

  lemma EnterRooted(g: Graph, s: Search, gray: set<nat>, v: nat)
    requires CanEnter(g, s, gray, v)
    ensures Rooted(g, Entered(s, v), gray + {v})
  {
    hide FoundGood, StackReaches, BlackSeen;
    var s' := Entered(s, v);
    EnterNumbered(g, s, v);
    assert forall x | x in gray :: x in s.stack;
    hide Reach, Found, Numbered, Num, Visited, Entered;
    forall y | y in s'.stack
      ensures HasRoot(g, s', gray + {v}, y)
    {
      if y == v {
        ReachRefl(g, v);
        assert v in gray + {v};
      } else {
        var x := RootOf(g, s, gray, y);
        assert x in gray + {v} && Num(s', x) <= Num(s', y);
      }
    }
  }

  lemma EnterKeeps(g: Graph, s: Search, gray: set<nat>, v: nat)
    requires CanEnter(g, s, gray, v)
    ensures Inv(g, Entered(s, v), gray + {v})
  {
    hide Reach, FoundGood, StackReaches, Rooted;
    EnterNumbered(g, s, v);
    EnterStackReaches(g, s, gray, v);
    EnterRooted(g, s, gray, v);
    hide Numbered, Found;
  }

  // ----- What a call and its successor loop establish -----

  // Nothing known at s is forgotten at s'; nodes discovered since have later numbers.
  ghost predicate Extends(s: Search, s': Search) {
    && |s.index| == |s'.index| && s.stack <= s'.stack && s.found <= s'.found && s.counter <= s'.counter
    && (forall x | Visited(s, x) :: Visited(s', x) && Num(s', x) == Num(s, x))
    && (forall x | Visited(s', x) && !Visited(s, x) :: s.counter <= Num(s', x))
  }

  lemma ExtendsTrans(s: Search, t: Search, u: Search)
    requires Extends(s, t) && Extends(t, u)
    ensures Extends(s, u)
  {
  }

  // Edges from the stack above `base` into its first `below` nodes do not undercut low.
  ghost predicate Covers(g: Graph, s: Search, base: nat, below: nat, low: nat) {
    forall i, j | base <= i < |s.stack| && 0 <= j < below <= |s.stack| && Edge(g, s.stack[i], s.stack[j]) ::
      low <= Num(s, s.stack[j])
  }

  // low is the number of a node of the stack that v reaches.
  ghost predicate Witness(g: Graph, s: Search, v: nat, low: nat) {
    exists y :: y in s.stack && Num(s, y) == low && Reach(g, v, y)
  }

  // The result of a completed call on w from s: the state s' and w's lowlink.
  ghost predicate Called(g: Graph, s: Search, s': Search, w: nat, low: nat) {
    && !Visited(s, w) && Visited(s', w) && low <= Num(s', w) && Extends(s, s')
    && (if w in s'.stack then Witness(g, s', w, low) else low == Num(s', w))
    && Covers(g, s', |s.stack|, |s.stack|, low)
  }

  // Handled successors are visited, and those on the stack before the call do not undercut low.
  ghost predicate Handled(s0: Search, s: Search, ws: seq<nat>, low: nat) {
    forall w | w in ws :: Visited(s, w) && (w in s0.stack ==> low <= Num(s, w))
  }

  // The state inside v's call, its successors `ws` handled, entered from s0.
  ghost predicate InLoop(g: Graph, s0: Search, s: Search, gray: set<nat>, v: nat, ws: seq<nat>, low: nat) {
    && CanEnter(g, s0, gray, v) && v !in gray
    && Inv(g, s, gray + {v}) && Extends(Entered(s0, v), s)
    && low <= Num(s, v) && Witness(g, s, v, low)
    && Covers(g, s, |s0.stack| + 1, |s0.stack|, low)
    && Handled(s0, s, ws, low)
  }

  lemma LoopStarts(g: Graph, s0: Search, gray: set<nat>, v: nat)
    requires CanEnter(g, s0, gray, v)
    ensures InLoop(g, s0, Entered(s0, v), gray, v, [], s0.counter)
  {
    hide Reach, FoundGood, StackReaches, BlackSeen;
    assert v !in gray by {
      assert forall x | x in gray :: x in s0.stack;
    }
    EnterKeeps(g, s0, gray, v);
    EnterNumbered(g, s0, v);
    hide Rooted, Numbered;
    ReachRefl(g, v);
    assert v in Entered(s0, v).stack && Num(Entered(s0, v), v) == s0.counter;
  }

  lemma MayDescend(g: Graph, s0: Search, s: Search, gray: set<nat>, v: nat, ws: seq<nat>, low: nat, w: nat)
    requires InLoop(g, s0, s, gray, v, ws, low) && Edge(g, v, w) && !Visited(s, w)
    ensures CanEnter(g, s, gray + {v}, w)
  {
    hide Reach, FoundGood, StackReaches, BlackSeen, Rooted, Numbered, Extends, Covers, Witness, Handled;
    ReachEdge(g, v, w);
    forall x | x in gray
      ensures Reach(g, x, w)
    {
      ReachThenEdge(g, x, v, w);
    }
  }

  lemma DescendWitness(g: Graph, s0: Search, s: Search, s': Search, v: nat, low: nat, w: nat, lowW: nat)
    requires Edge(g, v, w) && Visited(s, v) && low <= Num(s, v) < s.counter && Witness(g, s, v, low)
    requires Called(g, s, s', w, lowW) && forall x | x in s.stack :: Visited(s, x)
    ensures Witness(g, s', v, Min(low, lowW))
  {
    hide Reach, Covers;
    if lowW < low {
      assert w in s'.stack;
      var y :| y in s'.stack && Num(s', y) == lowW && Reach(g, w, y);
      EdgeThenReach(g, v, w, y);
    } else {
      var y :| y in s.stack && Num(s, y) == low && Reach(g, v, y);
      var i :| 0 <= i < |s.stack| && s.stack[i] == y;
      assert s'.stack[i] == y;
    }
  }

  lemma DescendCovers(g: Graph, s: Search, s': Search, base: nat, below: nat, low: nat, lowW: nat)
    requires below <= base <= |s.stack| && Covers(g, s, base, below, low) && Covers(g, s', |s.stack|, |s.stack|, lowW)
    requires Extends(s, s') && forall x | x in s.stack :: Visited(s, x)
    ensures Covers(g, s', base, below, Min(low, lowW))
  {
    forall i, j | base <= i < |s'.stack| && 0 <= j < below && Edge(g, s'.stack[i], s'.stack[j])
      ensures Min(low, lowW) <= Num(s', s'.stack[j])
    {
      assert s'.stack[j] == s.stack[j];
      assert Num(s', s.stack[j]) == Num(s, s.stack[j]);
      if i < |s.stack| {
        assert s'.stack[i] == s.stack[i];
      }
    }
  }

  lemma DescendHandled(s0: Search, s: Search, s': Search, ws: seq<nat>, low: nat, w: nat, lowW: nat)
    requires Handled(s0, s, ws, low) && Extends(s, s') && !Visited(s, w) && Visited(s', w)
    requires forall x | x in s0.stack :: Visited(s, x)
    ensures Handled(s0, s', ws + [w], Min(low, lowW))
  {
  }

  lemma AfterDescend(g: Graph, s0: Search, s: Search, s': Search, gray: set<nat>, v: nat, ws: seq<nat>, low: nat,
      w: nat, lowW: nat)
    requires InLoop(g, s0, s, gray, v, ws, low) && Edge(g, v, w)
    requires Called(g, s, s', w, lowW) && Inv(g, s', gray + {v})
    ensures InLoop(g, s0, s', gray, v, ws + [w], Min(low, lowW))
  {
    hide Reach, FoundGood, StackReaches, BlackSeen, Rooted;
    LoopFacts(g, s0, s, gray, v, ws, low);
    assert forall x | x in s.stack :: Visited(s, x);
    hide Numbered;
    assert Num(s', v) == Num(s, v);
    ExtendsTrans(Entered(s0, v), s, s');
    DescendWitness(g, s0, s, s', v, low, w, lowW);
    DescendCovers(g, s, s', |s0.stack| + 1, |s0.stack|, low, lowW);
    DescendHandled(s0, s, s', ws, low, w, lowW);
    hide Covers, Witness, Handled, Extends, CanEnter, Inv;
  }

  // Plain consequences of being in v's loop.
  lemma LoopFacts(g: Graph, s0: Search, s: Search, gray: set<nat>, v: nat, ws: seq<nat>, low: nat)
    requires InLoop(g, s0, s, gray, v, ws, low)
    ensures Visited(s, v) && Num(s, v) == s0.counter < s.counter && |s0.stack| < |s.stack| && s.stack[|s0.stack|] == v
    ensures forall x | x in s0.stack :: x in s.stack && Visited(s, x) && Num(s, x) == Num(s0, x) < s0.counter
  {
    hide Reach, FoundGood, StackReaches, BlackSeen, Rooted, Covers, Witness, Handled;
    EnterNumbered(g, s0, v);
    var e := Entered(s0, v);
    assert e.stack[|s0.stack|] == v && e.stack <= s.stack;
    assert Visited(e, v) && Num(e, v) == s0.counter;
    forall x | x in s0.stack
      ensures x in s.stack && Visited(s, x) && Num(s, x) == Num(s0, x) < s0.counter
    {
      assert Visited(s0, x) && Visited(e, x) && Num(e, x) == Num(s0, x);
      var i :| 0 <= i < |s0.stack| && s0.stack[i] == x;
      assert s.stack[i] == x;
    }
  }

  // A successor already on the stack.
  lemma AfterBackEdge(g: Graph, s0: Search, s: Search, gray: set<nat>, v: nat, ws: seq<nat>, low: nat, w: nat)
    requires InLoop(g, s0, s, gray, v, ws, low) && Edge(g, v, w) && w in s.stack && Visited(s, w)
    ensures InLoop(g, s0, s, gray, v, ws + [w], Min(low, Num(s, w)))
  {
    hide Reach, FoundGood, StackReaches, BlackSeen, Rooted, Numbered, Extends;
    ReachEdge(g, v, w);
  }

  // A successor whose component is already known.
  lemma AfterCrossEdge(g: Graph, s0: Search, s: Search, gray: set<nat>, v: nat, ws: seq<nat>, low: nat, w: nat)
    requires InLoop(g, s0, s, gray, v, ws, low) && Visited(s, w) && w !in s.stack
    ensures InLoop(g, s0, s, gray, v, ws + [w], low)
  {
    LoopFacts(g, s0, s, gray, v, ws, low);
    hide Reach, FoundGood, StackReaches, BlackSeen, Rooted, Numbered, Extends, Covers, Witness;
  }

  // ----- Leaving a node -----

  // The nodes above the first k, from the top down.
  function Popped(stack: seq<nat>, k: nat): seq<nat> {
    if |stack| <= k then [] else [stack[|stack| - 1]] + Popped(stack[..|stack| - 1], k)
  }

  lemma {:induction false} PoppedMembers(stack: seq<nat>, k: nat, x: nat)
    ensures x in Popped(stack, k) <==> exists i :: k <= i < |stack| && stack[i] == x
  {
    if |stack| > k {
      PoppedMembers(stack[..|stack| - 1], k, x);
      if x in Popped(stack[..|stack| - 1], k) {
        var i :| k <= i < |stack| - 1 && stack[..|stack| - 1][i] == x;
        assert stack[i] == x;
      }
      if i: int :| k <= i < |stack| && stack[i] == x {
        assert i < |stack| - 1 ==> stack[..|stack| - 1][i] == x;
      }
    }
  }

  lemma {:induction false} PoppedDistinct(stack: seq<nat>, k: nat)
    requires Distinct(stack)
    ensures Distinct(Popped(stack, k))
  {
    if |stack| > k {
      var front := stack[..|stack| - 1];
      PoppedDistinct(front, k);
      PoppedMembers(front, k, stack[|stack| - 1]);
      assert stack[|stack| - 1] !in Popped(front, k);
    }
  }

  // v's loop is over: every successor has been handled.
  ghost predicate LoopDone(g: Graph, s0: Search, s: Search, gray: set<nat>, v: nat, ws: seq<nat>, low: nat) {
    InLoop(g, s0, s, gray, v, ws, low) && forall w | Edge(g, v, w) :: w in ws
  }

  // A node at or above v on the stack.
  ghost predicate Above(s0: Search, s: Search, x: nat) {
    exists i :: |s0.stack| <= i < |s.stack| && s.stack[i] == x
  }

  lemma AboveFacts(g: Graph, s0: Search, s: Search, gray: set<nat>, v: nat, ws: seq<nat>, low: nat, x: nat)
    requires InLoop(g, s0, s, gray, v, ws, low) && x in s.stack
    ensures Above(s0, s, x) <==> Num(s, v) <= Num(s, x)
    ensures Above(s0, s, x) <==> x !in s0.stack
  {
    LoopFacts(g, s0, s, gray, v, ws, low);
    hide Reach, FoundGood, StackReaches, BlackSeen, Rooted, Covers, Witness, Handled;
    var i :| 0 <= i < |s.stack| && s.stack[i] == x;
    assert s0.stack <= s.stack;
    if i < |s0.stack| {
      assert s0.stack[i] == x;
    }
  }

  lemma AboveReachesV(g: Graph, s0: Search, s: Search, gray: set<nat>, v: nat, ws: seq<nat>, low: nat, x: nat)
    requires InLoop(g, s0, s, gray, v, ws, low) && x in s.stack && Above(s0, s, x)
    ensures Reach(g, x, v) && Reach(g, v, x)
  {
    LoopFacts(g, s0, s, gray, v, ws, low);
    AboveFacts(g, s0, s, gray, v, ws, low, x);
    hide Reach, FoundGood, BlackSeen, Covers, Witness, Handled, Numbered, Above, Extends;
    var z := RootOf(g, s, gray + {v}, x);
    if z != v {
      assert z in s0.stack by { hide *; GrayBelow(g, s0, gray, v, z); }
      assert Reach(g, z, v);
      ReachTrans(g, x, z, v);
    }
  }

  lemma GrayBelow(g: Graph, s0: Search, gray: set<nat>, v: nat, z: nat)
    requires CanEnter(g, s0, gray, v) && z in gray
    ensures z in s0.stack
  {
    hide HasRoot;
  }

  // Everything reachable from a found node is found.
  lemma FoundClosed(g: Graph, s: Search, a: nat, x: nat)
    requires Numbered(g, s) && FoundGood(g, s.found) && Found(s, a) && Reach(g, a, x)
    ensures Found(s, x)
  {
    hide Reach, IsScc;
    var inside := set y | 0 <= y < |s.index| && Found(s, y);
    assert forall y | Found(s, y) :: Visited(s, y);
    forall y, z | y in inside && Edge(g, y, z)
      ensures z in inside
    {
      var i :| 0 <= i < |s.found| && y in s.found[i];
      var j :| 0 <= j <= i && z in s.found[j];
      assert Found(s, z);
    }
    ClosedKeeps(g, inside, a, x);
  }

  // When v's lowlink is its own number, an edge from v or above stays there or leads to a found node.
  lemma NoEscape(g: Graph, s0: Search, s: Search, gray: set<nat>, v: nat, ws: seq<nat>, a: nat, b: nat)
    requires LoopDone(g, s0, s, gray, v, ws, Num(s, v))
    requires a in s.stack && Above(s0, s, a) && Edge(g, a, b)
    ensures if b in s.stack then Above(s0, s, b) else Found(s, b)
  {
    var low := Num(s, v);
    LoopFacts(g, s0, s, gray, v, ws, low);
    AboveFacts(g, s0, s, gray, v, ws, low, a);
    hide Reach, FoundGood, StackReaches, Witness, HasRoot, Above;
    if a != v {
      assert a !in gray by {
        if a in gray {
          GrayBelow(g, s0, gray, v, a);
        }
      }
      assert Visited(s, b);
    }
    assert Visited(s, b);
    if b in s.stack {
      AboveFacts(g, s0, s, gray, v, ws, low, b);
      if b in s0.stack {
        if a != v {
          CoversUse(g, s0, s, gray, v, ws, low, a, b);
        }
      }
    }
  }

  lemma CoversUse(g: Graph, s0: Search, s: Search, gray: set<nat>, v: nat, ws: seq<nat>, low: nat, a: nat, b: nat)
    requires InLoop(g, s0, s, gray, v, ws, low)
    requires a in s.stack && Above(s0, s, a) && a != v && b in s0.stack && Edge(g, a, b)
    ensures low <= Num(s, b)
  {
    LoopFacts(g, s0, s, gray, v, ws, low);
    hide Reach, FoundGood, StackReaches, Witness, Rooted, BlackSeen, Numbered, Handled;
    var i :| |s0.stack| <= i < |s.stack| && s.stack[i] == a;
    var j :| 0 <= j < |s0.stack| && s0.stack[j] == b;
    assert s.stack[j] == b;
  }

  // The component that is about to be popped, as a set.
  lemma PoppedIsAbove(s0: Search, s: Search, x: nat)
    ensures x in Popped(s.stack, |s0.stack|) <==> Above(s0, s, x)
  {
    PoppedMembers(s.stack, |s0.stack|, x);
  }

  lemma ComponentMaximal(g: Graph, s0: Search, s: Search, gray: set<nat>, v: nat, ws: seq<nat>, c: set<nat>, x: nat,
      y: nat)
    requires LoopDone(g, s0, s, gray, v, ws, Num(s, v))
    requires forall z :: z in c <==> Above(s0, s, z)
    requires x in c && Reach(g, x, y) && Reach(g, y, x)
    ensures y in c
  {
    hide Reach, Inv, CanEnter, Above, Covers, Witness, Handled, Extends, Found;
    if y !in c {
      var a, b := Crossing(g, c, x, y);
      AboveOnStack(s0, s, a);
      AboveOnStack(s0, s, x);
      NoEscape(g, s0, s, gray, v, ws, a, b);
      ReachTrans(g, b, y, x);
      FoundApart(g, s0, s, gray, v, ws, Num(s, v), b, x);
    }
  }

  lemma AboveOnStack(s0: Search, s: Search, x: nat)
    requires Above(s0, s, x)
    ensures x in s.stack
  {
  }

  lemma NewComponent(g: Graph, s0: Search, s: Search, gray: set<nat>, v: nat, ws: seq<nat>)
    requires LoopDone(g, s0, s, gray, v, ws, Num(s, v))
    ensures IsScc(g, Elements(Popped(s.stack, |s0.stack|))) && Distinct(Popped(s.stack, |s0.stack|))
  {
    var low, c := Num(s, v), Elements(Popped(s.stack, |s0.stack|));
    LoopFacts(g, s0, s, gray, v, ws, low);
    assert Distinct(s.stack) by { hide *; StackDistinct(g, s); }
    PoppedDistinct(s.stack, |s0.stack|);
    assert Above(s0, s, v);
    hide Reach, Inv, CanEnter, Above, Covers, Witness, Handled, Extends, Distinct, LoopDone, InLoop, Num;
    forall x
      ensures x in c <==> Above(s0, s, x)
    {
      PoppedIsAbove(s0, s, x);
    }
    forall x | x in c
      ensures Reach(g, x, v) && Reach(g, v, x)
    {
      AboveOnStack(s0, s, x);
      AboveReachesV(g, s0, s, gray, v, ws, low, x);
    }
    forall x, y | x in c && y in c
      ensures Reach(g, x, y)
    {
      ReachTrans(g, x, v, y);
    }
    forall x, y | x in c && Reach(g, x, y) && Reach(g, y, x)
      ensures y in c
    {
      ComponentMaximal(g, s0, s, gray, v, ws, c, x, y);
    }
  }

  lemma StackDistinct(g: Graph, s: Search)
    requires Numbered(g, s)
    ensures Distinct(s.stack)
  {
  }

  // No found node reaches the stack.
  lemma FoundApart(g: Graph, s0: Search, s: Search, gray: set<nat>, v: nat, ws: seq<nat>, low: nat, b: nat, x: nat)
    requires InLoop(g, s0, s, gray, v, ws, low) && x in s.stack && Reach(g, b, x)
    ensures !Found(s, b)
  {
    if Found(s, b) {
      FoundClosed(g, s, b, x);
    }
  }

  function Closed(s0: Search, s: Search): Search {
    s.(stack := s0.stack, found := s.found + [Popped(s.stack, |s0.stack|)])
  }

  lemma NewIsApart(g: Graph, s0: Search, s: Search, x: nat)
    requires Numbered(g, s) && Found(s, x)
    ensures x !in Popped(s.stack, |s0.stack|)
  {
    PoppedIsAbove(s0, s, x);
    if x in Popped(s.stack, |s0.stack|) {
      AboveOnStack(s0, s, x);
    }
  }

  // Edges of the new component stay in it or lead to an earlier one.
  lemma NewIsLast(g: Graph, s0: Search, s: Search, gray: set<nat>, v: nat, ws: seq<nat>, a: nat, b: nat)
    requires LoopDone(g, s0, s, gray, v, ws, Num(s, v))
    requires a in Popped(s.stack, |s0.stack|) && Edge(g, a, b)
    ensures b in Popped(s.stack, |s0.stack|) || Found(s, b)
  {
    hide LoopDone, Above, Found;
    PoppedIsAbove(s0, s, a);
    PoppedIsAbove(s0, s, b);
    AboveOnStack(s0, s, a);
    NoEscape(g, s0, s, gray, v, ws, a, b);
  }

  lemma FoundGrows(g: Graph, found: seq<seq<nat>>, c: seq<nat>)
    requires FoundGood(g, found) && IsScc(g, Elements(c)) && Distinct(c)
    requires forall i, x | 0 <= i < |found| && x in found[i] :: x !in c
    requires forall a, b | a in c && Edge(g, a, b) :: b in c || exists j :: 0 <= j < |found| && b in found[j]
    ensures FoundGood(g, found + [c])
  {
    hide IsScc, Distinct;
    var found' := found + [c];
    forall i, a, b | 0 <= i < |found'| && a in found'[i] && Edge(g, a, b)
      ensures exists j :: 0 <= j <= i && b in found'[j]
    {
      if i < |found| {
        var j :| 0 <= j <= i && b in found[j];
        assert b in found'[j];
      } else if b in c {
        assert b in found'[i];
      } else {
        var j :| 0 <= j < |found| && b in found[j];
        assert b in found'[j];
      }
    }
  }

  lemma CloseFound(g: Graph, s0: Search, s: Search, gray: set<nat>, v: nat, ws: seq<nat>)
    requires LoopDone(g, s0, s, gray, v, ws, Num(s, v))
    ensures FoundGood(g, Closed(s0, s).found)
  {
    var c := Popped(s.stack, |s0.stack|);
    NewComponent(g, s0, s, gray, v, ws);
    assert FoundGood(g, s.found) && Numbered(g, s);
    hide IsScc, Inv, CanEnter, Covers, Witness, Handled, Extends, Distinct, LoopDone, InLoop, Num, FoundGood, Numbered;
    forall i, x | 0 <= i < |s.found| && x in s.found[i]
      ensures x !in c
    {
      assert Found(s, x);
      NewIsApart(g, s0, s, x);
    }
    forall a, b | a in c && Edge(g, a, b)
      ensures b in c || exists j :: 0 <= j < |s.found| && b in s.found[j]
    {
      NewIsLast(g, s0, s, gray, v, ws, a, b);
    }
    FoundGrows(g, s.found, c);
  }

  lemma ClosedFinds(s0: Search, s: Search, x: nat)
    ensures Found(Closed(s0, s), x) <==> Found(s, x) || x in Popped(s.stack, |s0.stack|)
  {
    hide Popped;
    var s' := Closed(s0, s);
    if Found(s, x) {
      var i :| 0 <= i < |s.found| && x in s.found[i];
      assert x in s'.found[i];
    }
    if x in Popped(s.stack, |s0.stack|) {
      assert x in s'.found[|s.found|];
    }
  }

  lemma CloseNumbered(g: Graph, s0: Search, s: Search, gray: set<nat>, v: nat, ws: seq<nat>)
    requires InLoop(g, s0, s, gray, v, ws, Num(s, v))
    ensures Numbered(g, Closed(s0, s))
    ensures forall x | x in s0.stack :: x in s.stack && Num(s, x) == Num(s0, x)
  {
    var s', c := Closed(s0, s), Popped(s.stack, |s0.stack|);
    LoopFacts(g, s0, s, gray, v, ws, Num(s, v));
    hide FoundGood, StackReaches, BlackSeen, Rooted, Covers, Witness, Handled;
    forall x
      ensures Found(s', x) <==> Found(s, x) || x in c
    {
      ClosedFinds(s0, s, x);
    }
    hide Found;
    forall x | x in s.stack
      ensures x in c <==> x !in s0.stack
    {
      PoppedIsAbove(s0, s, x);
      AboveFacts(g, s0, s, gray, v, ws, Num(s, v), x);
    }
    forall x | x in c
      ensures x in s.stack
    {
      PoppedIsAbove(s0, s, x);
      AboveOnStack(s0, s, x);
    }
    assert forall x :: Visited(s', x) <==> Visited(s, x);
    assert forall x :: Num(s', x) == Num(s, x);
    assert forall i | 0 <= i < |s0.stack| :: s0.stack[i] == s.stack[i];
  }

  lemma CloseRooted(g: Graph, s0: Search, s: Search, gray: set<nat>, v: nat, ws: seq<nat>, s': Search)
    requires InLoop(g, s0, s, gray, v, ws, Num(s, v))
    requires s'.stack == s0.stack && s'.index == s.index
    ensures Rooted(g, s', gray)
  {
    LoopFacts(g, s0, s, gray, v, ws, Num(s, v));
    hide FoundGood, StackReaches, BlackSeen, Covers, Witness, Handled, Numbered, Extends, Reach;
    assert forall x :: Num(s', x) == Num(s, x);
    forall y | y in s'.stack
      ensures HasRoot(g, s', gray, y)
    {
      var x := RootOf(g, s0, gray, y);
      assert x in gray && Num(s', x) <= Num(s', y) && Reach(g, y, x);
    }
  }

  /** v's component is complete: popping it keeps the invariant, now without v. */
  lemma CloseKeeps(g: Graph, s0: Search, s: Search, gray: set<nat>, v: nat, ws: seq<nat>)
    requires LoopDone(g, s0, s, gray, v, ws, Num(s, v))
    ensures Inv(g, Closed(s0, s), gray) && Called(g, s0, Closed(s0, s), v, Num(s, v))
  {
    var s' := Closed(s0, s);
    CloseFound(g, s0, s, gray, v, ws);
    CloseNumbered(g, s0, s, gray, v, ws);
    CloseRooted(g, s0, s, gray, v, ws, s');
    LoopFacts(g, s0, s, gray, v, ws, Num(s, v));
    assert forall x :: Visited(s', x) <==> Visited(s, x);
    assert forall x :: Num(s', x) == Num(s, x);
    hide FoundGood, Numbered, Rooted, Reach, Covers, Witness, Handled, Extends;
    assert StackReaches(g, s');
    assert BlackSeen(g, s', gray) by { BlackBelow(g, s0, s, gray, v, ws, s'); }
    assert Extends(s0, s') && Covers(g, s', |s0.stack|, |s0.stack|, Num(s, v)) && v !in s0.stack by {
      CloseExtends(g, s0, s, gray, v, ws);
    }
  }

  lemma BlackBelow(g: Graph, s0: Search, s: Search, gray: set<nat>, v: nat, ws: seq<nat>, s': Search)
    requires InLoop(g, s0, s, gray, v, ws, Num(s, v))
    requires s'.stack == s0.stack && s'.index == s.index
    ensures BlackSeen(g, s', gray)
  {
    LoopFacts(g, s0, s, gray, v, ws, Num(s, v));
    hide FoundGood, Numbered, Rooted, Reach, Covers, Witness, Handled, Extends, StackReaches;
    assert forall x :: Visited(s', x) <==> Visited(s, x);
    assert BlackSeen(g, s, gray + {v});
    assert !Visited(s0, v);
    forall x, y | x in s'.stack && x !in gray && Edge(g, x, y)
      ensures Visited(s', y)
    {
      assert x != v by { OldIsVisited(g, s0, gray, v, x); }
      assert Visited(s, y);
    }
  }

  lemma OldIsVisited(g: Graph, s0: Search, gray: set<nat>, v: nat, x: nat)
    requires CanEnter(g, s0, gray, v) && x in s0.stack
    ensures Visited(s0, x) && x != v
  {
  }

  lemma CloseExtends(g: Graph, s0: Search, s: Search, gray: set<nat>, v: nat, ws: seq<nat>)
    requires InLoop(g, s0, s, gray, v, ws, Num(s, v))
    ensures Extends(s0, Closed(s0, s)) && Covers(g, Closed(s0, s), |s0.stack|, |s0.stack|, Num(s, v)) && v !in s0.stack
  {
    var s', e := Closed(s0, s), Entered(s0, v);
    LoopFacts(g, s0, s, gray, v, ws, Num(s, v));
    hide FoundGood, Rooted, Reach, Witness, Handled, StackReaches, BlackSeen;
    EnterNumbered(g, s0, v);
    hide Numbered;
    assert Extends(s0, e);
    ExtendsTrans(s0, e, s);
    assert forall x :: Visited(s', x) <==> Visited(s, x);
    assert forall x :: Num(s', x) == Num(s, x);
  }

  /** v's component reaches further down: v stays on the stack, no longer gray. */
  lemma BlackenKeeps(g: Graph, s0: Search, s: Search, gray: set<nat>, v: nat, ws: seq<nat>, low: nat)
    requires LoopDone(g, s0, s, gray, v, ws, low) && low < Num(s, v)
    ensures Inv(g, s, gray) && Called(g, s0, s, v, low)
  {
    LoopFacts(g, s0, s, gray, v, ws, low);
    BlackenRooted(g, s0, s, gray, v, ws, low);
    BlackenCovers(g, s0, s, gray, v, ws, low);
    hide FoundGood, Numbered, Rooted, Reach, Covers, Witness, StackReaches;
    assert BlackSeen(g, s, gray);
    assert s.stack[|s0.stack|] == v;
    hide BlackSeen, Handled;
    assert Extends(s0, s) by { BlackenExtends(g, s0, s, gray, v, ws, low); }
  }

  lemma BlackenExtends(g: Graph, s0: Search, s: Search, gray: set<nat>, v: nat, ws: seq<nat>, low: nat)
    requires InLoop(g, s0, s, gray, v, ws, low)
    ensures Extends(s0, s) && !Visited(s0, v)
  {
    hide FoundGood, Rooted, Reach, Witness, Handled, StackReaches, BlackSeen, Covers;
    EnterNumbered(g, s0, v);
    hide Numbered;
    assert Extends(s0, Entered(s0, v));
    ExtendsTrans(s0, Entered(s0, v), s);
  }

  // v reaches a node that was gray before the call and is earlier on the stack.
  lemma OtherRoot(g: Graph, s0: Search, s: Search, gray: set<nat>, v: nat, ws: seq<nat>, low: nat) returns (r: nat)
    requires InLoop(g, s0, s, gray, v, ws, low) && low < Num(s, v)
    ensures r in gray && Num(s, r) < Num(s, v) && Reach(g, v, r)
  {
    LoopFacts(g, s0, s, gray, v, ws, low);
    hide FoundGood, StackReaches, BlackSeen, Covers, Handled, Numbered, Extends, Reach, Above;
    var z :| z in s.stack && Num(s, z) == low && Reach(g, v, z);
    AboveFacts(g, s0, s, gray, v, ws, low, z);
    r := RootOf(g, s0, gray, z);
    ReachTrans(g, v, z, r);
  }

  // v's root serves every node that had v as its root.
  lemma Reroot(g: Graph, s: Search, gray: set<nat>, v: nat, r: nat)
    requires Rooted(g, s, gray + {v}) && r in gray && Num(s, r) < Num(s, v) && Reach(g, v, r)
    ensures Rooted(g, s, gray)
  {
    forall x | x in gray
      ensures x in s.stack
    {
      assert x in gray + {v};
    }
    hide Reach, Num;
    forall y | y in s.stack
      ensures HasRoot(g, s, gray, y)
    {
      var x := RootOf(g, s, gray + {v}, y);
      if x == v {
        ReachTrans(g, y, v, r);
        assert r in gray && Num(s, r) <= Num(s, y) && Reach(g, y, r);
      } else {
        assert x in gray && Num(s, x) <= Num(s, y) && Reach(g, y, x);
      }
    }
  }

  lemma BlackenRooted(g: Graph, s0: Search, s: Search, gray: set<nat>, v: nat, ws: seq<nat>, low: nat)
    requires InLoop(g, s0, s, gray, v, ws, low) && low < Num(s, v)
    ensures Rooted(g, s, gray)
  {
    var r := OtherRoot(g, s0, s, gray, v, ws, low);
    Reroot(g, s, gray, v, r);
  }

  lemma BlackenCovers(g: Graph, s0: Search, s: Search, gray: set<nat>, v: nat, ws: seq<nat>, low: nat)
    requires LoopDone(g, s0, s, gray, v, ws, low)
    ensures Covers(g, s, |s0.stack|, |s0.stack|, low)
  {
    LoopFacts(g, s0, s, gray, v, ws, low);
    hide FoundGood, StackReaches, BlackSeen, Witness, Numbered, Rooted, Reach;
    forall i, j | |s0.stack| <= i < |s.stack| && 0 <= j < |s0.stack| && Edge(g, s.stack[i], s.stack[j])
      ensures low <= Num(s, s.stack[j])
    {
      assert s.stack[j] == s0.stack[j];
      if i == |s0.stack| {
        assert Edge(g, v, s.stack[j]) && s.stack[j] in s0.stack;
      }
    }
  }

  // ----- The object -----

  // The components an instance reports: those with at least `least` members.
  function Reported(found: seq<seq<nat>>, least: nat): seq<seq<nat>> {
    if found == [] then []
    else
      Reported(found[..|found| - 1], least)
      + (if |found[|found| - 1]| >= least then [found[|found| - 1]] else [])
  }

  lemma ReportedGrows(found: seq<seq<nat>>, c: seq<nat>, least: nat)
    ensures Reported(found + [c], least) == if |c| >= least then Reported(found, least) + [c]
      else Reported(found, least)
  {
    assert (found + [c])[..|found|] == found;
  }

  lemma {:induction false} ReportedMembers(found: seq<seq<nat>>, least: nat, c: seq<nat>)
    ensures c in Reported(found, least) <==> c in found && |c| >= least
  {
    if found != [] {
      ReportedMembers(found[..|found| - 1], least, c);
      assert found == found[..|found| - 1] + [found[|found| - 1]];
    }
  }

  // onStack marks exactly the nodes of the stack.
  ghost predicate Mirrors(onStack: seq<bool>, stack: seq<nat>, n: nat) {
    |onStack| == n && (forall x | 0 <= x < n :: onStack[x] <==> x in stack) && forall x | x in stack :: x < n
  }

  lemma PopOne(onStack: seq<bool>, stack: seq<nat>, whole: seq<nat>, k: nat, n: nat)
    requires k < |stack| && stack <= whole && Distinct(whole) && Mirrors(onStack, stack, n)
    ensures var w := stack[|stack| - 1];
      && w < n == |onStack| && whole[|stack| - 1] == w
      && Mirrors(onStack[w := false], stack[..|stack| - 1], n)
      && Popped(stack, k) == [w] + Popped(stack[..|stack| - 1], k)
  {
    var front, w := stack[..|stack| - 1], stack[|stack| - 1];
    assert stack == front + [w] && w in stack;
    assert w !in front by {
      assert forall i | 0 <= i < |stack| :: stack[i] == whole[i];
    }
    assert forall x :: x in stack <==> x in front || x == w;
  }

  lemma DistinctAt(c: seq<nat>, i: nat, j: nat)
    requires i < |c| && j < |c| && Distinct(c) && c[i] == c[j]
    ensures i == j
  {
  }

  lemma PoppedNone(stack: seq<nat>)
    ensures Popped(stack, |stack|) == []
  {
  }

  class Tarjan {
    const g: Graph
    const least: nat
    var indexCounter: nat
    var stack: seq<nat>
    var onStack: seq<bool>
    var index: seq<Option<nat>>
    var lowlink: seq<nat>
    var sccs: seq<seq<nat>>
    ghost var found: seq<seq<nat>>

    constructor (graph: Graph, minimum: nat)
      requires Graphs.Valid(graph)
      ensures g == graph && least == minimum && Good({}) && |index| == |g|
      ensures forall x: nat | x < |g| :: !Visited(S(), x)
    {
      g, least := graph, minimum;
      indexCounter, stack, sccs, found := 0, [], [], [];
      onStack := seq(|graph|, _ => false);
      index := seq(|graph|, _ => None);
      lowlink := seq(|graph|, _ => 0);
    }

    ghost function S(): Search
      reads this
    {
      Search(index, stack, found, indexCounter)
    }

    // The search invariant, and the fields that only mirror it.
    ghost predicate Good(gray: set<nat>)
      reads this
    {
      && Inv(g, S(), gray)
      && |lowlink| == |g| && Mirrors(onStack, stack, |g|)
      && sccs == Reported(found, least)
    }

    ghost function Unvisited(): set<nat>
      reads this
    {
      set x: nat | x < |g| && !Visited(S(), x)
    }

    // Pops the stack down to v; the nodes popped are one component.
    method PopDown(v: nat, ghost k: nat) returns (scc: seq<nat>)
      requires k < |stack| && stack[k] == v && Distinct(stack) && Mirrors(onStack, stack, |g|)
      modifies this`stack, this`onStack
      ensures stack == old(stack[..k]) && scc == Popped(old(stack), k) && Mirrors(onStack, stack, |g|)
    {
      hide Popped, Distinct, Mirrors;
      scc := [];
      ghost var whole := stack;
      while true
        invariant k < |stack| && stack <= whole && scc + Popped(stack, k) == Popped(whole, k)
        invariant Mirrors(onStack, stack, |g|)
        decreases |stack|
      {
        var w := stack[|stack| - 1];
        ghost var before := stack;
        PopOne(onStack, before, whole, k, |g|);
        stack := stack[..|stack| - 1];
        onStack := onStack[w := false];
        scc := scc + [w];
        assert scc + Popped(stack, k) == scc[..|scc| - 1] + ([w] + Popped(stack, k));
        if w == v {
          DistinctAt(whole, k, |stack|);
          PoppedNone(stack);
          assert scc + [] == scc;
          return;
        }
      }
    }

    method PopComponent(v: nat, ghost s0: Search)
      requires s0.stack < stack && stack[|s0.stack|] == v && Distinct(stack)
      requires Mirrors(onStack, stack, |g|) && sccs == Reported(found, least)
      modifies this`stack, this`onStack, this`sccs, this`found
      ensures S() == Closed(s0, old(S())) && Mirrors(onStack, stack, |g|) && sccs == Reported(found, least)
    {
      hide Popped, Distinct, Mirrors, Reported;
      var scc := PopDown(v, |s0.stack|);
      ReportedGrows(found, scc, least);
      found := found + [scc];
      if |scc| >= least {
        sccs := sccs + [scc];
      }
    }

    /** One call of `strongconnect`: v's whole depth-first subtree. */
    method StrongConnect(v: nat, ghost gray: set<nat>)
      requires Good(gray) && CanEnter(g, S(), gray, v)
      modifies this
      ensures Good(gray)
      ensures |lowlink| == |old(lowlink)| && v < |lowlink| && Called(g, old(S()), S(), v, lowlink[v])
      ensures forall x | 0 <= x < |g| && Visited(old(S()), x) :: lowlink[x] == old(lowlink[x])
      decreases Unvisited()
    {
      hide Inv, CanEnter, InLoop, Called, Reported, Distinct;
      ghost var s0 := S();
      EntryFacts(g, s0, gray, v);
      LoopStarts(g, s0, gray, v);
      index := index[v := Some(indexCounter)];
      lowlink := lowlink[v := indexCounter];
      indexCounter := indexCounter + 1;
      stack := stack + [v];
      onStack := onStack[v := true];
      assert S() == Entered(s0, v);
      LoopIsInv(g, s0, S(), gray, v, [], lowlink[v]);
      assert g[v][..0] == [];
      for i := 0 to |g[v]|
        invariant Good(gray + {v}) && InLoop(g, s0, S(), gray, v, g[v][..i], lowlink[v])
        invariant forall x | 0 <= x < |g| && Visited(s0, x) :: lowlink[x] == old(lowlink[x])
      {
        var w := g[v][i];
        assert g[v][..i + 1] == g[v][..i] + [w];
        assert Edge(g, v, w);
        ghost var s, low := S(), lowlink[v];
        LoopIsInv(g, s0, s, gray, v, g[v][..i], low);
        if index[w].None? {
          MayDescend(g, s0, s, gray, v, g[v][..i], low, w);
          assert v in old(Unvisited()) && v !in Unvisited() && Unvisited() <= old(Unvisited());
          StrongConnect(w, gray + {v});
          AfterDescend(g, s0, s, S(), gray, v, g[v][..i], low, w, lowlink[w]);
          lowlink := lowlink[v := Min(lowlink[v], lowlink[w])];
        } else if onStack[w] {
          AfterBackEdge(g, s0, s, gray, v, g[v][..i], low, w);
          lowlink := lowlink[v := Min(lowlink[v], index[w].value)];
        } else {
          AfterCrossEdge(g, s0, s, gray, v, g[v][..i], low, w);
        }
      }
      ghost var s, ws := S(), g[v][..|g[v]|];
      LoopIsInv(g, s0, s, gray, v, ws, lowlink[v]);
      if lowlink[v] == index[v].value {
        CloseKeeps(g, s0, s, gray, v, ws);
        PopComponent(v, s0);
      } else {
        BlackenKeeps(g, s0, s, gray, v, ws, lowlink[v]);
      }
    }
  }

  lemma EntryFacts(g: Graph, s: Search, gray: set<nat>, v: nat)
    requires CanEnter(g, s, gray, v)
    ensures v < |g| == |s.index| && Graphs.Valid(g) && !Visited(s, v)
  {
  }

  // What the loop of a call relies on at every turn.
  lemma LoopIsInv(g: Graph, s0: Search, s: Search, gray: set<nat>, v: nat, ws: seq<nat>, low: nat)
    requires InLoop(g, s0, s, gray, v, ws, low)
    ensures Inv(g, s, gray + {v}) && |s.index| == |g| && v < |g| && Graphs.Valid(g)
    ensures Visited(s, v) && low <= Num(s, v) && !Visited(s0, v)
    ensures forall x | Visited(s0, x) :: Visited(s, x)
    ensures s0.stack < s.stack && s.stack[|s0.stack|] == v && Distinct(s.stack) && forall x | x in s.stack :: x < |g|
  {
    LoopFacts(g, s0, s, gray, v, ws, low);
    StackDistinct(g, s);
    hide FoundGood, StackReaches, BlackSeen, Rooted, Covers, Witness, Handled;
    EnterNumbered(g, s0, v);
    assert s0.stack < Entered(s0, v).stack;
  }

  // ----- The whole run -----

  /** The lists partition the nodes into components, each listed once, dependencies first. */
  ghost predicate Components(g: Graph, found: seq<seq<nat>>) {
    && FoundGood(g, found)
    && (forall i, x | 0 <= i < |found| && x in found[i] :: x < |g|)
    && (forall x: nat | x < |g| :: Listed(found, x))
  }

  lemma RunEnds(g: Graph, s: Search)
    requires Inv(g, s, {}) && forall x: nat | x < |g| :: Visited(s, x)
    ensures Components(g, s.found) && s.stack == []
  {
    hide FoundGood, StackReaches, BlackSeen, HasRoot;
    if s.stack != [] {
      var x := RootOf(g, s, {}, s.stack[0]);
    }
    forall x: nat | x < |g|
      ensures Listed(s.found, x)
    {
      assert Visited(s, x);
      assert Found(s, x);
    }
    forall i, x | 0 <= i < |s.found| && x in s.found[i]
      ensures x < |g|
    {
      assert Found(s, x);
      assert Visited(s, x);
    }
  }

  /** `run`: every node is searched from once; the components reported are those with at
      least `least` members. */
  method Run(g: Graph, least: nat) returns (sccs: seq<seq<nat>>, ghost found: seq<seq<nat>>)
    requires Graphs.Valid(g)
    ensures Components(g, found) && sccs == Reported(found, least)
    ensures ReportsExactly(g, sccs, least)
  {
    hide Inv, Called, CanEnter, Components, Reported, ReportsExactly;
    var t := new Tarjan(g, least);
    for v := 0 to |g|
      invariant fresh(t) && t.g == g && t.least == least && t.Good({})
      invariant |t.index| == |g| && forall x: nat | x < v :: Visited(t.S(), x)
    {
      if t.index[v].None? {
        ghost var s := t.S();
        CanStart(g, s, v);
        t.StrongConnect(v, {});
        CalledVisits(g, s, t.S(), v, t.lowlink[v]);
      }
    }
    RunEnds(g, t.S());
    sccs, found := t.sccs, t.found;
    ReportedExact(g, found, least);
  }

  lemma CanStart(g: Graph, s: Search, v: nat)
    requires Inv(g, s, {}) && v < |g| && !Visited(s, v)
    ensures CanEnter(g, s, {}, v)
  {
  }

  lemma CalledVisits(g: Graph, s: Search, s': Search, v: nat, low: nat)
    requires Called(g, s, s', v, low)
    ensures Visited(s', v) && |s'.index| == |s.index| && forall x | Visited(s, x) :: Visited(s', x)
  {
  }

  /** Tarjan is exact: the sets listed are the strongly connected components, all of them
      and nothing else; two nodes share a list exactly when they reach each other. */
  lemma ComponentsExact(g: Graph, found: seq<seq<nat>>)
    requires Components(g, found)
    ensures forall c: set<nat> | forall x | x in c :: x < |g| ::
      IsScc(g, c) <==> exists i :: 0 <= i < |found| && Elements(found[i]) == c
    ensures forall i, x, y: nat | 0 <= i < |found| && x in found[i] && y < |g| ::
      y in found[i] <==> Reach(g, x, y) && Reach(g, y, x)
  {
    hide Reach;
    forall c: set<nat> | (forall x | x in c :: x < |g|) && IsScc(g, c)
      ensures exists i :: 0 <= i < |found| && Elements(found[i]) == c
    {
      var x :| x in c;
      assert Listed(found, x);
      var i :| 0 <= i < |found| && x in found[i];
      SccsEqual(g, c, Elements(found[i]), x);
    }
    forall i, x, y: nat | 0 <= i < |found| && x in found[i] && y < |g|
      ensures y in found[i] <==> Reach(g, x, y) && Reach(g, y, x)
    {
      assert IsScc(g, Elements(found[i])) && x in Elements(found[i]);
      assert y in found[i] <==> y in Elements(found[i]);
    }
  }

  /** The lists are the components with at least `least` nodes, all of them and nothing else,
      each without duplicates. */
  ghost predicate ReportsExactly(g: Graph, sccs: seq<seq<nat>>, least: nat) {
    && (forall c: set<nat> | forall x | x in c :: x < |g| ::
          IsScc(g, c) && |c| >= least <==> exists i :: 0 <= i < |sccs| && Elements(sccs[i]) == c)
    && (forall i | 0 <= i < |sccs| :: Distinct(sccs[i]))
  }

  lemma ReportedExact(g: Graph, found: seq<seq<nat>>, least: nat)
    requires Components(g, found)
    ensures ReportsExactly(g, Reported(found, least), least)
  {
    hide Reach, IsScc, Reported;
    var sccs := Reported(found, least);
    ComponentsExact(g, found);
    forall c | c in sccs
      ensures c in found && |Elements(c)| == |c| >= least && Distinct(c) && IsScc(g, Elements(c))
    {
      ReportedMembers(found, least, c);
      DistinctCard(c);
    }
    forall c: set<nat> | (forall x | x in c :: x < |g|) && IsScc(g, c) && |c| >= least
      ensures exists i :: 0 <= i < |sccs| && Elements(sccs[i]) == c
    {
      var i :| 0 <= i < |found| && Elements(found[i]) == c;
      DistinctCard(found[i]);
      ReportedMembers(found, least, found[i]);
      var k :| 0 <= k < |sccs| && sccs[k] == found[i];
    }
  }

  /** Dependencies come first: whatever a listed node reaches is in its own list or an earlier one. */
  lemma DependenciesFirst(g: Graph, found: seq<seq<nat>>, i: nat, j: nat, a: nat, b: nat)
    requires Components(g, found) && i < |found| && j < |found|
    requires a in found[i] && b in found[j] && Reach(g, a, b)
    ensures j <= i
  {
    hide Reach, IsScc;
    var upto := found[..i + 1];
    var early := set x: nat | x < |g| && Listed(upto, x);
    forall x, y | x in early && Edge(g, x, y)
      ensures y in early
    {
      var k :| 0 <= k < |upto| && x in upto[k];
      var m :| 0 <= m <= k && y in found[m];
      assert y in upto[m];
    }
    assert a in upto[i];
    ClosedKeeps(g, early, a, b);
    var k :| 0 <= k < |upto| && b in upto[k];
    assert b in found[k];
  }
}
