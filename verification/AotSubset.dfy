/** Which functions the lowerings take, told from the syntax alone, and what the emitted
    function is called. */
module AotSubset {
  import opened Names
  import opened Finite
  import Ir
  import S = Source
  import LowerFn

  // ----- The general lowering -----

  // An expression of the subset whose variables are all bound.
  predicate InSubset(e: S.Expr, bound: set<string>) {
    match e
    case IntLit(_) => true
    case BoolLit(_) => true
    case Variable(x) => x in bound
    case Grouping(inner) => InSubset(inner, bound)
    case Unary(op, right) => op == "-" && InSubset(right, bound)
    case Binary(left, op, right) =>
      op in {"+", "-", "*", "/", "<", "<=", ">", ">=", "==", "!="} && InSubset(left, bound) && InSubset(right, bound)
    case Call(callee, args) => callee.Variable? && forall i | 0 <= i < |args| :: InSubset(args[i], bound)
    case OtherExpr => false
  }

  // No code follows the statement in its block: it returns, or a statement of it does.
  predicate Closes(s: S.Stmt) {
    match s
    case Return(_) => true
    case Block(stmts) => exists i | 0 <= i < |stmts| :: Closes(stmts[i])
    case _ => false
  }

  // The statements of a block up to the first that closes it; the others are skipped.
  predicate Reached(stmts: seq<S.Stmt>, i: nat)
    requires i < |stmts|
  {
    forall j | 0 <= j < i :: !Closes(stmts[j])
  }

  // The names a statement binds for what is emitted after it, whatever block they are bound in.
  function Bound(s: S.Stmt): set<string> {
    match s
    case Let(pattern, _) => if pattern.VariablePattern? || pattern.BindingPattern? then {pattern.name} else {}
    case Block(stmts) =>
      set i, x | 0 <= i < |stmts| && Reached(stmts, i) && x in Bound(stmts[i]) :: x
    case If(_, thenBranch, None) => Bound(thenBranch)
    case If(_, thenBranch, Some(elseBranch)) => Bound(thenBranch) + Bound(elseBranch)
    case While(_, body) => Bound(body)
    case _ => {}
  }

  function BoundBefore(stmts: seq<S.Stmt>, i: nat): set<string>
    requires i <= |stmts|
  {
    set j, x | 0 <= j < i && x in Bound(stmts[j]) :: x
  }

  // A statement of the subset in which every name is bound by then.
  predicate StmtInSubset(s: S.Stmt, bound: set<string>) {
    match s
    case Block(stmts) =>
      forall i | 0 <= i < |stmts| && Reached(stmts, i) :: StmtInSubset(stmts[i], bound + BoundBefore(stmts, i))
    case Let(pattern, init) => (pattern.VariablePattern? || pattern.BindingPattern?) && InSubset(init, bound)
    case Expression(e) => InSubset(e, bound)
    case Return(None) => true
    case Return(Some(e)) => InSubset(e, bound)
    case If(cond, thenBranch, None) => InSubset(cond, bound) && StmtInSubset(thenBranch, bound)
    case If(cond, thenBranch, Some(elseBranch)) =>
      && InSubset(cond, bound) && StmtInSubset(thenBranch, bound)
      && StmtInSubset(elseBranch, bound + Bound(thenBranch))
    case While(cond, body) => InSubset(cond, bound) && StmtInSubset(body, bound)
    case Match(_, _) => false
    case OtherStmt => false
  }

  predicate Lowerable(f: S.FunctionDecl) {
    StmtInSubset(f.body, Elements(f.params))
  }

  // The emitted function is called and typed as the source one.
  predicate SameHeader(f: S.FunctionDecl, r: Ir.Function) {
    && r.name == f.name
    && r.ret == Some(Ir.I64)
    && |r.params| == |f.params|
    && (forall i | 0 <= i < |f.params| :: r.params[i] == (f.params[i], Ir.I64))
  }

  // ----- The small forms -----

  predicate IsAtom(e: S.Expr) {
    e.Variable? || e.IntLit?
  }

  predicate IsArithmetic(e: S.Expr) {
    e.Binary? && e.op in {"+", "-", "*", "/"}
  }

  // An operation, grouped or not, or a call of a named function, on variables and numbers.
  predicate PlainExpr(e: S.Expr) {
    var inner := if e.Grouping? then e.inner else e;
    || (IsArithmetic(inner) && IsAtom(inner.left) && IsAtom(inner.right))
    || (e.Call? && e.callee.Variable? && forall i | 0 <= i < |e.args| :: IsAtom(e.args[i]))
  }

  // The body is `return e`, on its own or alone in a block.
  ghost predicate PlainForm(f: S.FunctionDecl) {
    exists e :: PlainExpr(e) && f.body in [S.Return(Some(e)), S.Block([S.Return(Some(e))])]
  }

  // Returns a number, an operation on two variables or, where allowed, a variable.
  predicate SmallReturn(s: S.Stmt, variables: bool) {
    s.Return? && s.value.Some? &&
    var e := s.value.value;
    || e.IntLit?
    || (variables && e.Variable?)
    || (IsArithmetic(e) && e.left.Variable? && e.right.Variable?)
  }

  // The same inside any number of blocks of one statement.
  predicate SmallBranch(s: S.Stmt) {
    if s.Block? then |s.stmts| == 1 && SmallBranch(s.stmts[0]) else SmallReturn(s, false)
  }

  // One `if` with both branches, on a variable or a truth value.
  ghost predicate IfForm(f: S.FunctionDecl) {
    exists c, t, e ::
      && f.body == S.Block([S.If(c, t, Some(e))])
      && (c.Variable? || c.BoolLit?) && SmallBranch(t) && SmallBranch(e)
  }

  // One `match` on a variable with two arms; the first pattern is no enum pattern.
  ghost predicate MatchForm(f: S.FunctionDecl) {
    exists x, a, b ::
      && f.body == S.Block([S.Match(S.Variable(x), [a, b])])
      && !a.pattern.OtherPattern? && SmallReturn(a.body, true) && SmallReturn(b.body, true)
  }

  // ----- The general lowering takes exactly that -----

  lemma {:induction false} ExprTaken(e: S.Expr, slots: map<string, string>, t: nat)
    ensures LowerFn.LoweredExpr(e, slots, t).Some? <==> InSubset(e, slots.Keys)
    decreases e, 1
  {
    hide TmpName, IntText;
    match e
    case Grouping(inner) => ExprTaken(inner, slots, t);
    case Unary(_, right) => ExprTaken(right, slots, t);
    case Binary(left, op, right) =>
      ExprTaken(left, slots, t);
      var l := LowerFn.LoweredExpr(left, slots, t);
      if l.Some? {
        ExprTaken(right, slots, l.value.nextTmp);
      }
    case Call(_, args) => ArgsTaken(args, slots, t);
    case _ =>
  }

  lemma {:induction false} ArgsTaken(args: seq<S.Expr>, slots: map<string, string>, t: nat)
    ensures LowerFn.LoweredArgs(args, slots, t).Some? <==> forall i | 0 <= i < |args| :: InSubset(args[i], slots.Keys)
    decreases args, 0
  {
    hide LowerFn.LoweredExpr, InSubset;
    if args != [] {
      var front, last := args[..|args| - 1], args[|args| - 1];
      ArgsTaken(front, slots, t);
      FrontInSubset(front, last, slots.Keys);
      assert args == front + [last];
      var a := LowerFn.LoweredArgs(front, slots, t);
      if a.Some? {
        ExprTaken(last, slots, a.value.nextTmp);
      }
    }
  }

  lemma FrontInSubset(front: seq<S.Expr>, last: S.Expr, bound: set<string>)
    ensures var args := front + [last];
      (forall i | 0 <= i < |args| :: InSubset(args[i], bound))
      <==> (forall i | 0 <= i < |front| :: InSubset(front[i], bound)) && InSubset(last, bound)
  {
    hide InSubset;
    var args := front + [last];
    assert args[|front|] == last && forall i | 0 <= i < |front| :: args[i] == front[i];
  }

  // What is known of a lowered statement without its code.
  ghost predicate Told(s: S.Stmt, st: LowerFn.State, r: Option<LowerFn.StmtCode>) {
    && (r.Some? <==> StmtInSubset(s, st.slots.Keys))
    && (r.Some? ==> r.value.state.slots.Keys == st.slots.Keys + Bound(s) && r.value.state.terminated == Closes(s))
  }

  lemma {:induction false} StmtTaken(fname: string, s: S.Stmt, st: LowerFn.State)
    requires !st.terminated
    ensures Told(s, st, LowerFn.LoweredStmt(fname, s, st))
    decreases s, 1
  {
    hide LowerFn.LoweredExpr, LowerFn.IfCode, LowerFn.WhileCode, LabelName, SlotName, InSubset;
    match s
    case Block(stmts) => SeqTaken(fname, stmts, st);
    case Let(_, init) => ExprTaken(init, st.slots, st.nextTmp);
    case Expression(e) => ExprTaken(e, st.slots, st.nextTmp);
    case Return(Some(e)) => ExprTaken(e, st.slots, st.nextTmp);
    case If(cond, thenBranch, elseBranch) =>
      ExprTaken(cond, st.slots, st.nextTmp);
      var c := LowerFn.LoweredExpr(cond, st.slots, st.nextTmp);
      if c.Some? {
        var st1 := st.(nextTmp := c.value.nextTmp, nextLbl := st.nextLbl + if elseBranch.Some? then 3 else 2);
        StmtTaken(fname, thenBranch, st1);
        var t := LowerFn.LoweredStmt(fname, thenBranch, st1);
        if t.Some? && elseBranch.Some? {
          StmtTaken(fname, elseBranch.value, t.value.state.(terminated := false));
        }
      }
    case While(cond, body) =>
      ExprTaken(cond, st.slots, st.nextTmp);
      var c := LowerFn.LoweredExpr(cond, st.slots, st.nextTmp);
      if c.Some? {
        StmtTaken(fname, body, st.(nextTmp := c.value.nextTmp, nextLbl := st.nextLbl + 3));
      }
    case _ =>
  }

  lemma {:induction false} SeqTaken(fname: string, stmts: seq<S.Stmt>, st: LowerFn.State)
    requires !st.terminated
    ensures Told(S.Block(stmts), st, LowerFn.LoweredSeq(fname, stmts, st))
    decreases stmts, 0
  {
    if stmts != [] {
      StmtTaken(fname, stmts[0], st);
      var h := LowerFn.LoweredStmt(fname, stmts[0], st);
      BlockHead(stmts, st.slots.Keys);
      if h.Some? {
        if Closes(stmts[0]) {
          Skipped(fname, stmts[1..], h.value.state);
        } else {
          SeqTaken(fname, stmts[1..], h.value.state);
        }
      }
    }
  }

  // After a terminator nothing is emitted, and nothing is refused.
  lemma {:induction false} Skipped(fname: string, stmts: seq<S.Stmt>, st: LowerFn.State)
    requires st.terminated
    ensures LowerFn.LoweredSeq(fname, stmts, st) == Some(LowerFn.StmtCode([], st))
  {
    if stmts != [] {
      Skipped(fname, stmts[1..], st);
      var none: seq<Ir.Instr> := [];
      assert none + none == none;
    }
  }

  lemma BlockHead(stmts: seq<S.Stmt>, bound: set<string>)
    requires stmts != []
    ensures var h, tail := stmts[0], S.Block(stmts[1..]);
      && (Closes(S.Block(stmts)) <==> Closes(h) || Closes(tail))
      && Bound(S.Block(stmts)) == (if Closes(h) then Bound(h) else Bound(h) + Bound(tail))
      && (StmtInSubset(S.Block(stmts), bound)
          <==> StmtInSubset(h, bound) && (Closes(h) || StmtInSubset(tail, bound + Bound(h))))
  {
    BlockCloses(stmts);
    BlockBinds(stmts);
    BlockIn(stmts, bound);
  }

  lemma BlockCloses(stmts: seq<S.Stmt>)
    requires stmts != []
    ensures Closes(S.Block(stmts)) <==> Closes(stmts[0]) || Closes(S.Block(stmts[1..]))
  {
    if Closes(S.Block(stmts)) {
      var i :| 0 <= i < |stmts| && Closes(stmts[i]);
      assert i == 0 || Closes(stmts[1..][i - 1]);
    }
    if Closes(S.Block(stmts[1..])) {
      var i :| 0 <= i < |stmts[1..]| && Closes(stmts[1..][i]);
      assert Closes(stmts[i + 1]);
    }
  }

  lemma ReachedTail(stmts: seq<S.Stmt>, i: nat)
    requires 0 < i < |stmts|
    ensures Reached(stmts, i) <==> !Closes(stmts[0]) && Reached(stmts[1..], i - 1)
  {
    if !Closes(stmts[0]) && Reached(stmts[1..], i - 1) {
      forall j | 0 <= j < i
        ensures !Closes(stmts[j])
      {
        assert j == 0 || stmts[j] == stmts[1..][j - 1];
      }
    }
    if Reached(stmts, i) {
      forall j | 0 <= j < i - 1
        ensures !Closes(stmts[1..][j])
      {
        assert !Closes(stmts[j + 1]);
      }
    }
  }

  lemma BlockBinds(stmts: seq<S.Stmt>)
    requires stmts != []
    ensures Bound(S.Block(stmts))
      == (if Closes(stmts[0]) then Bound(stmts[0]) else Bound(stmts[0]) + Bound(S.Block(stmts[1..])))
  {
    var tail := stmts[1..];
    forall x
      ensures x in Bound(S.Block(stmts)) <==> x in Bound(stmts[0]) || (!Closes(stmts[0]) && x in Bound(S.Block(tail)))
    {
      if x in Bound(S.Block(stmts)) {
        var i :| 0 <= i < |stmts| && Reached(stmts, i) && x in Bound(stmts[i]);
        if i > 0 {
          ReachedTail(stmts, i);
          assert tail[i - 1] == stmts[i];
        }
      }
      if x in Bound(stmts[0]) {
        assert Reached(stmts, 0);
      }
      if !Closes(stmts[0]) && x in Bound(S.Block(tail)) {
        var i :| 0 <= i < |tail| && Reached(tail, i) && x in Bound(tail[i]);
        ReachedTail(stmts, i + 1);
        assert tail[i] == stmts[i + 1];
      }
    }
  }

  lemma BoundBeforeTail(stmts: seq<S.Stmt>, i: nat)
    requires 0 < i <= |stmts|
    ensures BoundBefore(stmts, i) == Bound(stmts[0]) + BoundBefore(stmts[1..], i - 1)
  {
    forall x
      ensures x in BoundBefore(stmts, i) <==> x in Bound(stmts[0]) || x in BoundBefore(stmts[1..], i - 1)
    {
      if x in BoundBefore(stmts, i) {
        var j :| 0 <= j < i && x in Bound(stmts[j]);
        assert j == 0 || stmts[1..][j - 1] == stmts[j];
      }
      if x in BoundBefore(stmts[1..], i - 1) {
        var j :| 0 <= j < i - 1 && x in Bound(stmts[1..][j]);
        assert x in Bound(stmts[j + 1]);
      }
    }
  }

  lemma BlockIn(stmts: seq<S.Stmt>, bound: set<string>)
    requires stmts != []
    ensures StmtInSubset(S.Block(stmts), bound)
      <==> StmtInSubset(stmts[0], bound)
           && (Closes(stmts[0]) || StmtInSubset(S.Block(stmts[1..]), bound + Bound(stmts[0])))
  {
    var tail, bound' := stmts[1..], bound + Bound(stmts[0]);
    assert Reached(stmts, 0) && bound + BoundBefore(stmts, 0) == bound;
    forall i | 0 < i < |stmts|
      ensures bound + BoundBefore(stmts, i) == bound' + BoundBefore(tail, i - 1)
      ensures Reached(stmts, i) <==> !Closes(stmts[0]) && Reached(tail, i - 1)
    {
      BoundBeforeTail(stmts, i);
      ReachedTail(stmts, i);
    }
    if StmtInSubset(S.Block(stmts), bound) && !Closes(stmts[0]) {
      forall i | 0 <= i < |tail| && Reached(tail, i)
        ensures StmtInSubset(tail[i], bound' + BoundBefore(tail, i))
      {
        assert Reached(stmts, i + 1);
        assert StmtInSubset(stmts[i + 1], bound + BoundBefore(stmts, i + 1));
      }
    }
    if StmtInSubset(stmts[0], bound) && (Closes(stmts[0]) || StmtInSubset(S.Block(tail), bound')) {
      forall i | 0 <= i < |stmts| && Reached(stmts, i)
        ensures StmtInSubset(stmts[i], bound + BoundBefore(stmts, i))
      {
        if i > 0 {
          assert Reached(tail, i - 1);
          assert StmtInSubset(tail[i - 1], bound' + BoundBefore(tail, i - 1));
        }
      }
    }
  }

  lemma {:induction false} ParamSlots(params: seq<string>)
    ensures LowerFn.ParamState(params).slots.Keys == Elements(params) && !LowerFn.ParamState(params).terminated
  {
    hide SlotName;
    if params != [] {
      var front, last := params[..|params| - 1], params[|params| - 1];
      ParamSlots(front);
      OneMoreElement(front, last);
      assert params == front + [last];
    }
  }

  lemma OneMoreElement(front: seq<string>, last: string)
    ensures Elements(front + [last]) == Elements(front) + {last}
  {
  }

  /** The general lowering takes a function exactly when its body stays in the subset and every
      name is bound by a parameter or by a `let` emitted before; what it emits has the function's
      own name, parameters and type. */
  lemma TakenExactly(f: S.FunctionDecl)
    ensures LowerFn.LoweredFunction(f).Some? <==> Lowerable(f)
    ensures LowerFn.LoweredFunction(f).Some? ==> SameHeader(f, LowerFn.LoweredFunction(f).value)
  {
    hide LowerFn.LoweredStmt, LowerFn.ParamState, LowerFn.ParamStores, LowerFn.Finished, StmtInSubset;
    ParamSlots(f.params);
    StmtTaken(LowerFn.StripAt(f.name), f.body, LowerFn.ParamState(f.params));
  }
}
