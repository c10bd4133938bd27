/** The lowering engine as it runs: one object whose methods push instructions and bump
    counters, each proved to emit exactly what `LowerFn` says. */
module LowererObject {
  import opened Names
  import opened Ir
  import opened LowerFn
  import opened AotSubset
  import S = Source

  // Lowering gives up at the first argument it cannot lower.
  lemma {:induction false} PrefixFails(args: seq<S.Expr>, slots: map<string, string>, t: nat, i: nat)
    requires i <= |args| && LoweredArgs(args[..i], slots, t).None?
    ensures LoweredArgs(args, slots, t).None?
  {
    if i < |args| {
      assert args[..|args| - 1][..i] == args[..i];
      PrefixFails(args[..|args| - 1], slots, t, i);
    } else {
      assert args[..i] == args;
    }
  }

  // One push after another gives the nested listing of a lowered `if` or loop.
  lemma PushedIf(a: seq<Instr>, c: ExprCode, t: StmtCode, thenBB: string, mergeBB: string)
    ensures a + c.code + [BrCond(c.operand, thenBB, mergeBB)] + [Label(thenBB)]
      + (t.code + BranchTo(t.state.terminated, mergeBB))
            + [Label(mergeBB)] == a + IfCode(c, t, None, thenBB, mergeBB, mergeBB)
  {
  }

  lemma PushedIfElse(a: seq<Instr>, c: ExprCode, t: StmtCode, e: StmtCode, thenBB: string, elseBB: string,
      mergeBB: string)
    ensures a + c.code + [BrCond(c.operand, thenBB, elseBB)] + [Label(thenBB)]
            + (t.code + BranchTo(t.state.terminated, mergeBB))
            + [Label(elseBB)] + (e.code + BranchTo(e.state.terminated, mergeBB)) + [Label(mergeBB)]
            == a + IfCode(c, t, Some(e), thenBB, elseBB, mergeBB)
  {
    hide BranchTo;
    var thenJump, elseJump := BranchTo(t.state.terminated, mergeBB), BranchTo(e.state.terminated, mergeBB);
    var test, last := [BrCond(c.operand, thenBB, elseBB), Label(thenBB)], [Label(mergeBB)];
    var other := [Label(elseBB)] + (e.code + elseJump);
    assert ElseCode(Some(e), elseBB, mergeBB) == other;
    Nested(a, c.code, test, t.code, thenJump, other, last);
    assert [BrCond(c.operand, thenBB, elseBB)] + [Label(thenBB)] == test;
    Pushed(a + c.code, [BrCond(c.operand, thenBB, elseBB)], [Label(thenBB)]);
    Pushed(a + c.code + test + (t.code + thenJump), [Label(elseBB)], e.code + elseJump);
  }

  lemma Pushed(a: seq<Instr>, b: seq<Instr>, c: seq<Instr>)
    ensures a + b + c == a + (b + c)
  {
  }

  lemma Nested(a: seq<Instr>, b: seq<Instr>, c: seq<Instr>, d: seq<Instr>, e: seq<Instr>, f: seq<Instr>, g: seq<Instr>)
    ensures a + b + c + (d + e) + f + g == a + (b + (c + (d + (e + (f + g)))))
  {
    Pushed(a + b + c + (d + e), f, g);
    Pushed(a + b + c, d, e);
    Pushed(a + b + c + d, e, f + g);
    Pushed(a + b + c, d, e + (f + g));
    Pushed(a + b, c, d + (e + (f + g)));
    Pushed(a, b, c + (d + (e + (f + g))));
  }

  // What lowering an `if` and a loop come to, piece by piece.
  lemma IfLowered(fname: string, s: S.Stmt, st: State, c: ExprCode)
    requires s.If? && !st.terminated && LoweredExpr(s.cond, st.slots, st.nextTmp) == Some(c)
    ensures var hasElse := s.elseBranch.Some?;
      var st1 := st.(nextTmp := c.nextTmp, nextLbl := st.nextLbl + if hasElse then 3 else 2);
      var thenBB, mergeBB := LabelName(fname, "then", st.nextLbl), LabelName(fname, "merge", st.nextLbl + 1);
      match LoweredStmt(fname, s.thenBranch, st1)
      case None => LoweredStmt(fname, s, st) == None
      case Some(t) =>
        if !hasElse then
          LoweredStmt(fname, s, st)
          == Some(StmtCode(IfCode(c, t, None, thenBB, mergeBB, mergeBB), t.state.(terminated := false)))
        else
          match LoweredStmt(fname, s.elseBranch.value, t.state.(terminated := false))
          case None => LoweredStmt(fname, s, st) == None
          case Some(e) =>
            var elseBB := LabelName(fname, "else", st.nextLbl + 2);
            LoweredStmt(fname, s, st)
            == Some(StmtCode(IfCode(c, t, Some(e), thenBB, elseBB, mergeBB), e.state.(terminated := false)))
  {
    hide IfCode, LabelName, LoweredExpr;
  }

  lemma WhileLowered(fname: string, s: S.Stmt, st: State, c: ExprCode)
    requires s.While? && !st.terminated && LoweredExpr(s.cond, st.slots, st.nextTmp) == Some(c)
    ensures var headBB, bodyBB := LabelName(fname, "while_head", st.nextLbl),
      LabelName(fname, "while_body", st.nextLbl + 1);
      var exitBB := LabelName(fname, "while_exit", st.nextLbl + 2);
      match LoweredStmt(fname, s.body, st.(nextTmp := c.nextTmp, nextLbl := st.nextLbl + 3))
      case None => LoweredStmt(fname, s, st) == None
      case Some(b) =>
        LoweredStmt(fname, s, st)
        == Some(StmtCode(WhileCode(c, b, headBB, bodyBB, exitBB), b.state.(terminated := false)))
  {
    hide WhileCode, LabelName, LoweredExpr;
  }

  lemma TestNotLowered(fname: string, s: S.Stmt, st: State)
    requires (s.If? || s.While?) && !st.terminated && LoweredExpr(s.cond, st.slots, st.nextTmp) == None
    ensures LoweredStmt(fname, s, st) == None
  {
    hide LoweredExpr;
  }

  lemma PushedWhile(a: seq<Instr>, c: ExprCode, b: StmtCode, headBB: string, bodyBB: string, exitBB: string)
    ensures a + [Br(headBB)] + [Label(headBB)] + c.code + [BrCond(c.operand, bodyBB, exitBB)] + [Label(bodyBB)]
            + (b.code + BranchTo(b.state.terminated, headBB)) + [Label(exitBB)] == a
              + WhileCode(c, b, headBB, bodyBB, exitBB)
  {
  }

  class Lowerer {
    var fname: string
    var allocas: seq<Instr>
    var body: seq<Instr>
    var nextTmp: nat
    var nextLbl: nat
    var slots: map<string, string>
    var terminated: bool

    constructor (name: string)
      ensures fname == StripAt(name) && body == [] && St() == State([], map[], 0, 0, false)
    {
      fname := StripAt(name);
      allocas, body, nextTmp, nextLbl, slots, terminated := [], [], 0, 0, map[], false;
    }

    function St(): State
      reads this
    {
      State(allocas, slots, nextTmp, nextLbl, terminated)
    }

    method Tmp() returns (t: string)
      modifies this`nextTmp
      ensures t == TmpName(old(nextTmp)) && nextTmp == old(nextTmp) + 1
    {
      t := TmpName(nextTmp);
      nextTmp := nextTmp + 1;
    }

    method NewLabel(kind: string) returns (l: string)
      modifies this`nextLbl
      ensures l == LabelName(fname, kind, old(nextLbl)) && nextLbl == old(nextLbl) + 1
    {
      l := LabelName(fname, kind, nextLbl);
      nextLbl := nextLbl + 1;
    }

    method SlotFor(name: string) returns (slot: string)
      modifies this`allocas, this`slots
      ensures St() == WithSlot(old(St()), name) && slot == slots[name]
    {
      if name in slots {
        slot := slots[name];
        return;
      }
      slot := SlotName(name);
      allocas := allocas + [Alloca(slot)];
      slots := slots[name := slot];
    }

    method Push(i: Instr)
      modifies this`body
      ensures body == old(body) + [i]
    {
      body := body + [i];
    }

    method BrTo(target: string)
      modifies this`body
      ensures body == old(body) + BranchTo(terminated, target)
    {
      if !terminated {
        Push(Br(target));
      }
    }

    method StartBlock(name: string)
      modifies this`body, this`terminated
      ensures body == old(body) + [Label(name)] && !terminated
    {
      Push(Label(name));
      terminated := false;
    }

    // Emits c after what was there, and nothing else changes but the temporary counter.
    twostate predicate Emitted(code: seq<Instr>, next: nat)
      reads this
    {
      body == old(body) + code && St() == old(St()).(nextTmp := next) && fname == old(fname)
    }

    /** Emits the code of an expression and gives the operand that holds its value. */
    method LowerExpr(e: S.Expr) returns (operand: Option<string>)
      modifies this
      ensures match LoweredExpr(e, old(slots), old(nextTmp))
        case Some(c) => operand == Some(c.operand) && Emitted(c.code, c.nextTmp)
        case None => operand == None
      ensures fname == old(fname)
      decreases e, 1
    {
      hide BinaryInstr, LoweredArgs, TmpName, IntText;
      match e
      case IntLit(n) => operand := Some(IntText(n));
      case BoolLit(b) => operand := Some(if b then "1" else "0");
      case Variable(x) =>
        if x !in slots {
          return None;
        }
        var slot := slots[x];
        var dest := Tmp();
        Push(Load(dest, slot));
        operand := Some(dest);
      case Grouping(inner) => operand := LowerExpr(inner);
      case Unary(op, right) =>
        if op != "-" {
          return None;
        }
        var r := LowerExpr(right);
        if r.None? {
          return None;
        }
        var dest := Tmp();
        Push(Arith(Sub, dest, "0", r.value));
        operand := Some(dest);
      case Binary(left, op, right) =>
        var l := LowerExpr(left);
        if l.None? {
          return None;
        }
        var r := LowerExpr(right);
        if r.None? {
          return None;
        }
        var dest := Tmp();
        var i := BinaryInstr(op, dest, l.value, r.value);
        if i.None? {
          return None;
        }
        Push(i.value);
        operand := Some(dest);
      case Call(callee, args) =>
        if !callee.Variable? {
          return None;
        }
        var ops := LowerArgs(args);
        if ops.None? {
          return None;
        }
        var dest := Tmp();
        Push(Ir.Call(dest, callee.name, ops.value));
        operand := Some(dest);
      case OtherExpr => operand := None;
    }

    // The argument loop of a call.
    method LowerArgs(args: seq<S.Expr>) returns (operands: Option<seq<string>>)
      modifies this
      ensures match LoweredArgs(args, old(slots), old(nextTmp))
        case Some(c) => operands == Some(c.operands) && Emitted(c.code, c.nextTmp)
        case None => operands == None
      ensures fname == old(fname)
      decreases args, 0
    {
      var ops: seq<string> := [];
      ghost var sofar: seq<Instr> := [];
      for i := 0 to |args|
        invariant LoweredArgs(args[..i], old(slots), old(nextTmp)) == Some(ArgsCode(sofar, ops, nextTmp))
        invariant body == old(body) + sofar && St() == old(St()).(nextTmp := nextTmp) && fname == old(fname)
      {
        assert args[..i + 1][..i] == args[..i];
        var o := LowerExpr(args[i]);
        if o.None? {
          PrefixFails(args, old(slots), old(nextTmp), i + 1);
          return None;
        }
        sofar := LoweredArgs(args[..i + 1], old(slots), old(nextTmp)).value.code;
        ops := ops + [o.value];
      }
      assert args[..|args|] == args;
      operands := Some(ops);
    }

    /** Emits the code of a statement; false when it is outside the subset. */
    method LowerStmt(s: S.Stmt) returns (ok: bool)
      modifies this
      ensures match LoweredStmt(old(fname), s, old(St()))
        case Some(p) => ok && body == old(body) + p.code && St() == p.state
        case None => !ok
      ensures fname == old(fname)
      decreases s, 2
    {
      if terminated {
        return true;
      }
      match s
      case Block(stmts) => ok := LowerBlock(stmts);
      case Let(pattern, init) =>
        if !pattern.VariablePattern? && !pattern.BindingPattern? {
          return false;
        }
        var v := LowerExpr(init);
        if v.None? {
          return false;
        }
        var slot := SlotFor(pattern.name);
        Push(Store(slot, v.value));
        ok := true;
      case Expression(e) =>
        var v := LowerExpr(e);
        ok := v.Some?;
      case Return(value) =>
        var op: Option<string> := Some("0");
        if value.Some? {
          op := LowerExpr(value.value);
          if op.None? {
            return false;
          }
        }
        Push(Ret(op));
        terminated := true;
        ok := true;
      case If(_, _, _) => ok := LowerIf(s);
      case While(_, _) => ok := LowerWhile(s);
      case Match(_, _) => ok := false;
      case OtherStmt => ok := false;
    }

    method LowerBlock(stmts: seq<S.Stmt>) returns (ok: bool)
      modifies this
      ensures match LoweredSeq(old(fname), stmts, old(St()))
        case Some(p) => ok && body == old(body) + p.code && St() == p.state
        case None => !ok
      ensures fname == old(fname)
      decreases stmts, 0
    {
      ghost var sofar: seq<Instr> := [];
      ghost var whole := LoweredSeq(fname, stmts, St());
      assert stmts[0..] == stmts;
      if whole.Some? {
        assert [] + whole.value.code == whole.value.code;
      }
      for i := 0 to |stmts|
        invariant body == old(body) + sofar && fname == old(fname)
        invariant match LoweredSeq(fname, stmts[i..], St())
          case Some(r) => whole == Some(StmtCode(sofar + r.code, r.state))
          case None => whole.None?
      {
        ghost var st := St();
        assert stmts[i..][0] == stmts[i] && stmts[i..][1..] == stmts[i + 1..];
        var done := LowerStmt(stmts[i]);
        if !done {
          return false;
        }
        ghost var h, rest := LoweredStmt(fname, stmts[i], st).value, LoweredSeq(fname, stmts[i + 1..], St());
        if rest.Some? {
          assert sofar + h.code + rest.value.code == sofar + (h.code + rest.value.code);
        }
        sofar := sofar + h.code;
      }
      ok := true;
    }

    // A block of its own that continues at `target`.
    method LowerBranch(s: S.Stmt, target: string) returns (ok: bool)
      modifies this
      ensures match LoweredStmt(old(fname), s, old(St()))
        case Some(p) => ok && body == old(body) + (p.code + BranchTo(p.state.terminated, target)) && St() == p.state
        case None => !ok
      ensures fname == old(fname)
      decreases s, 3
    {
      hide LoweredStmt;
      ok := LowerStmt(s);
      if ok {
        BrTo(target);
      }
    }

    method LowerIf(s: S.Stmt) returns (ok: bool)
      requires s.If? && !terminated
      modifies this
      ensures match LoweredStmt(old(fname), s, old(St()))
        case Some(p) => ok && body == old(body) + p.code && St() == p.state
        case None => !ok
      ensures fname == old(fname)
      decreases s, 1
    {
      hide LoweredExpr, LoweredStmt, LabelName, BranchTo, IfCode;
      var cond := LowerExpr(s.cond);
      if cond.None? {
        TestNotLowered(fname, s, old(St()));
        return false;
      }
      IfLowered(fname, s, old(St()), LoweredExpr(s.cond, old(slots), old(nextTmp)).value);
      var thenBB := NewLabel("then");
      var mergeBB := NewLabel("merge");
      var elseBB := mergeBB;
      if s.elseBranch.Some? {
        elseBB := NewLabel("else");
      }
      Push(BrCond(cond.value, thenBB, elseBB));
      terminated := true;
      StartBlock(thenBB);
      ghost var st1 := St();
      ok := LowerBranch(s.thenBranch, mergeBB);
      if !ok {
        return;
      }
      ghost var c, t := LoweredExpr(s.cond, old(slots), old(nextTmp)).value,
          LoweredStmt(fname, s.thenBranch, st1).value;
      if s.elseBranch.Some? {
        StartBlock(elseBB);
        ghost var st2 := St();
        ok := LowerBranch(s.elseBranch.value, mergeBB);
        if !ok {
          return;
        }
        ghost var e := LoweredStmt(fname, s.elseBranch.value, st2).value;
        StartBlock(mergeBB);
        PushedIfElse(old(body), c, t, e, thenBB, elseBB, mergeBB);
      } else {
        StartBlock(mergeBB);
        PushedIf(old(body), c, t, thenBB, mergeBB);
      }
    }

    method LowerWhile(s: S.Stmt) returns (ok: bool)
      requires s.While? && !terminated
      modifies this
      ensures match LoweredStmt(old(fname), s, old(St()))
        case Some(p) => ok && body == old(body) + p.code && St() == p.state
        case None => !ok
      ensures fname == old(fname)
      decreases s, 1
    {
      hide LoweredExpr, LoweredStmt, LabelName, BranchTo, WhileCode;
      BranchToOpen(LabelName(fname, "while_head", nextLbl));
      var headBB := NewLabel("while_head");
      var bodyBB := NewLabel("while_body");
      var exitBB := NewLabel("while_exit");
      BrTo(headBB);
      StartBlock(headBB);
      var cond := LowerExpr(s.cond);
      if cond.None? {
        TestNotLowered(fname, s, old(St()));
        return false;
      }
      WhileLowered(fname, s, old(St()), LoweredExpr(s.cond, old(slots), old(nextTmp)).value);
      Push(BrCond(cond.value, bodyBB, exitBB));
      terminated := true;
      StartBlock(bodyBB);
      ghost var st1 := St();
      ok := LowerBranch(s.body, headBB);
      if !ok {
        return;
      }
      StartBlock(exitBB);
      ghost var c, b := LoweredExpr(s.cond, old(slots), old(nextTmp)).value, LoweredStmt(fname, s.body, st1).value;
      PushedWhile(old(body), c, b, headBB, bodyBB, exitBB);
    }

    method Finish() returns (code: seq<Instr>)
      modifies this`body
      ensures code == Finished(old(body), St())
    {
      if !terminated {
        Push(Ret(Some("0")));
      }
      code := allocas + body;
    }
  }

  /** `lower_function`: None when the body leaves the subset. */
  method LowerFunction(f: S.FunctionDecl) returns (r: Option<Function>)
    ensures r == LoweredFunction(f)
    ensures r.Some? <==> Lowerable(f)
    ensures r.Some? ==> SameHeader(f, r.value)
  {
    hide LoweredStmt, ParamState, ParamStores, Finished, Lowerable, SameHeader;
    TakenExactly(f);
    var irParams := TypedParams(f.params);
    var lw := new Lowerer(f.name);
    NoParams();
    assert f.params[..0] == [];
    for i := 0 to |f.params|
      invariant lw.St() == ParamState(f.params[..i]) && lw.body == ParamStores(f.params[..i])
        && lw.fname == StripAt(f.name)
      invariant fresh(lw) && !lw.terminated
    {
      OneMoreParam(f.params, i);
      var slot := lw.SlotFor(f.params[i]);
      lw.Push(Store(slot, f.params[i]));
    }
    assert f.params[..|f.params|] == f.params;
    var ok := lw.LowerStmt(f.body);
    if !ok {
      return None;
    }
    var code := lw.Finish();
    r := Some(Function(f.name, irParams, Some(I64), code));
  }

  lemma {:induction false} ParamSlotNamed(params: seq<string>)
    ensures !ParamState(params).terminated && SlotsNamed(ParamState(params).slots)
    ensures forall p | p in params :: p in ParamState(params).slots
  {
    if params != [] {
      ParamSlotNamed(params[..|params| - 1]);
    }
  }

  lemma NoParams()
    ensures ParamState([]) == State([], map[], 0, 0, false) && ParamStores([]) == []
  {
  }

  lemma OneMoreParam(params: seq<string>, i: nat)
    requires i < |params|
    ensures ParamState(params[..i + 1]) == WithSlot(ParamState(params[..i]), params[i])
    ensures ParamStores(params[..i + 1]) == ParamStores(params[..i]) + [Store(SlotName(params[i]), params[i])]
    ensures params[i] in ParamState(params[..i + 1]).slots
    ensures ParamState(params[..i + 1]).slots[params[i]] == SlotName(params[i])
    ensures !ParamState(params[..i + 1]).terminated
  {
    assert params[..i + 1][..i] == params[..i];
    ParamSlotNamed(params[..i + 1]);
    assert params[..i + 1][i] == params[i];
  }
}
