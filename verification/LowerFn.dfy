/** General lowering of a function body to the IR: a `Lowerer` object that emits code in
    place, and the functions that say which code each of its methods emits. */
module LowerFn {
  import opened Names
  import opened Ir
  import S = Source

  // ----- What is emitted -----

  datatype ExprCode = ExprCode(code: seq<Instr>, operand: string, nextTmp: nat)

  datatype ArgsCode = ArgsCode(code: seq<Instr>, operands: seq<string>, nextTmp: nat)

  datatype State = State(allocas: seq<Instr>, slots: map<string, string>, nextTmp: nat, nextLbl: nat, terminated: bool)

  datatype StmtCode = StmtCode(code: seq<Instr>, state: State)

  function BinaryInstr(op: string, dest: string, l: string, r: string): Option<Instr> {
    if op == "+" then Some(Arith(Add, dest, l, r))
    else if op == "-" then Some(Arith(Sub, dest, l, r))
    else if op == "*" then Some(Arith(Mul, dest, l, r))
    else if op == "/" then Some(Arith(Div, dest, l, r))
    else if op == "<" then Some(ICmp(dest, Lt, l, r))
    else if op == "<=" then Some(ICmp(dest, Le, l, r))
    else if op == ">" then Some(ICmp(dest, Gt, l, r))
    else if op == ">=" then Some(ICmp(dest, Ge, l, r))
    else if op == "==" then Some(ICmp(dest, Eq, l, r))
    else if op == "!=" then Some(ICmp(dest, Ne, l, r))
    else None
  }

  function LoweredExpr(e: S.Expr, slots: map<string, string>, t: nat): Option<ExprCode>
    decreases e, 1
  {
    match e
    case IntLit(n) => Some(ExprCode([], IntText(n), t))
    case BoolLit(b) => Some(ExprCode([], if b then "1" else "0", t))
    case Variable(x) =>
      if x in slots then Some(ExprCode([Load(TmpName(t), slots[x])], TmpName(t), t + 1)) else None
    case Grouping(inner) => LoweredExpr(inner, slots, t)
    case Unary(op, right) =>
      if op != "-" then None
      else
        (match LoweredExpr(right, slots, t)
         case Some(r) =>
           Some(ExprCode(r.code + [Arith(Sub, TmpName(r.nextTmp), "0", r.operand)], TmpName(r.nextTmp), r.nextTmp + 1))
         case None => None)
    case Binary(left, op, right) =>
      (match LoweredExpr(left, slots, t)
       case None => None
       case Some(l) =>
         (match LoweredExpr(right, slots, l.nextTmp)
          case None => None
          case Some(r) =>
            var dest := TmpName(r.nextTmp);
            (match BinaryInstr(op, dest, l.operand, r.operand)
             case Some(i) => Some(ExprCode(l.code + r.code + [i], dest, r.nextTmp + 1))
             case None => None)))
    case Call(callee, args) =>
      if !callee.Variable? then None
      else
        (match LoweredArgs(args, slots, t)
         case Some(a) =>
           var dest := TmpName(a.nextTmp);
           Some(ExprCode(a.code + [Ir.Call(dest, callee.name, a.operands)], dest, a.nextTmp + 1))
         case None => None)
    case OtherExpr => None
  }

  function LoweredArgs(args: seq<S.Expr>, slots: map<string, string>, t: nat): Option<ArgsCode>
    decreases args, 0
  {
    if args == [] then Some(ArgsCode([], [], t))
    else
      match LoweredArgs(args[..|args| - 1], slots, t)
      case None => None
      case Some(a) =>
        (match LoweredExpr(args[|args| - 1], slots, a.nextTmp)
         case Some(l) => Some(ArgsCode(a.code + l.code, a.operands + [l.operand], l.nextTmp))
         case None => None)
  }

  function WithSlot(st: State, name: string): State {
    if name in st.slots then st
    else st.(allocas := st.allocas + [Alloca(SlotName(name))], slots := st.slots[name := SlotName(name)])
  }

  function BranchTo(terminated: bool, target: string): seq<Instr> {
    if terminated then [] else [Br(target)]
  }

  function ElseCode(e: Option<StmtCode>, elseBB: string, mergeBB: string): seq<Instr> {
    if e.None? then [] else [Label(elseBB)] + (e.value.code + BranchTo(e.value.state.terminated, mergeBB))
  }

  function IfCode(c: ExprCode, t: StmtCode, e: Option<StmtCode>, thenBB: string, elseBB: string,
      mergeBB: string): seq<Instr> {
    c.code + ([BrCond(c.operand, thenBB, elseBB), Label(thenBB)]
      + (t.code + (BranchTo(t.state.terminated, mergeBB) + (ElseCode(e, elseBB, mergeBB) + [Label(mergeBB)]))))
  }

  function WhileCode(c: ExprCode, b: StmtCode, headBB: string, bodyBB: string, exitBB: string): seq<Instr> {
    [Br(headBB), Label(headBB)] + (c.code + ([BrCond(c.operand, bodyBB, exitBB), Label(bodyBB)]
      + (b.code + (BranchTo(b.state.terminated, headBB) + [Label(exitBB)]))))
  }

  function LoweredStmt(fname: string, s: S.Stmt, st: State): Option<StmtCode>
    decreases s, 1
  {
    if st.terminated then Some(StmtCode([], st))
    else
      match s
      case Block(stmts) => LoweredSeq(fname, stmts, st)
      case Let(pattern, init) =>
        if !pattern.VariablePattern? && !pattern.BindingPattern? then None
        else
          (match LoweredExpr(init, st.slots, st.nextTmp)
           case None => None
           case Some(v) =>
             var st' := WithSlot(st.(nextTmp := v.nextTmp), pattern.name);
             Some(StmtCode(v.code + [Store(st'.slots[pattern.name], v.operand)], st')))
      case Expression(e) =>
        (match LoweredExpr(e, st.slots, st.nextTmp)
         case None => None
         case Some(v) => Some(StmtCode(v.code, st.(nextTmp := v.nextTmp))))
      case Return(None) => Some(StmtCode([Ret(Some("0"))], st.(terminated := true)))
      case Return(Some(e)) =>
        (match LoweredExpr(e, st.slots, st.nextTmp)
         case None => None
         case Some(v) =>
           Some(StmtCode(v.code + [Ret(Some(v.operand))], st.(nextTmp := v.nextTmp, terminated := true))))
      case If(cond, thenBranch, elseBranch) =>
        (match LoweredExpr(cond, st.slots, st.nextTmp)
         case None => None
         case Some(c) =>
           var thenBB := LabelName(fname, "then", st.nextLbl);
           var mergeBB := LabelName(fname, "merge", st.nextLbl + 1);
           (match LoweredStmt(fname, thenBranch,
             st.(nextTmp := c.nextTmp, nextLbl := st.nextLbl + if elseBranch.Some? then 3 else 2))
            case None => None
            case Some(t) =>
              if elseBranch.Some? then
                (match LoweredStmt(fname, elseBranch.value, t.state.(terminated := false))
                 case None => None
                 case Some(e) =>
                   var elseBB := LabelName(fname, "else", st.nextLbl + 2);
                   Some(StmtCode(IfCode(c, t, Some(e), thenBB, elseBB, mergeBB), e.state.(terminated := false))))
              else
                Some(StmtCode(IfCode(c, t, None, thenBB, mergeBB, mergeBB), t.state.(terminated := false)))))
      case While(cond, body) =>
        (match LoweredExpr(cond, st.slots, st.nextTmp)
         case None => None
         case Some(c) =>
           (match LoweredStmt(fname, body, st.(nextTmp := c.nextTmp, nextLbl := st.nextLbl + 3))
            case None => None
            case Some(b) =>
              var headBB := LabelName(fname, "while_head", st.nextLbl);
              var bodyBB := LabelName(fname, "while_body", st.nextLbl + 1);
              var exitBB := LabelName(fname, "while_exit", st.nextLbl + 2);
              Some(StmtCode(WhileCode(c, b, headBB, bodyBB, exitBB), b.state.(terminated := false)))))
      case Match(_, _) => None
      case OtherStmt => None
  }

  function LoweredSeq(fname: string, stmts: seq<S.Stmt>, st: State): Option<StmtCode>
    decreases stmts, 0
  {
    if stmts == [] then Some(StmtCode([], st))
    else
      match LoweredStmt(fname, stmts[0], st)
      case None => None
      case Some(h) =>
        (match LoweredSeq(fname, stmts[1..], h.state)
         case None => None
         case Some(r) => Some(StmtCode(h.code + r.code, r.state)))
  }

  // Parameters get their slots first, in order.
  function ParamState(params: seq<string>): State {
    if params == [] then State([], map[], 0, 0, false)
    else WithSlot(ParamState(params[..|params| - 1]), params[|params| - 1])
  }

  function ParamStores(params: seq<string>): seq<Instr> {
    if params == [] then []
    else ParamStores(params[..|params| - 1]) + [Store(SlotName(params[|params| - 1]), params[|params| - 1])]
  }

  function Finished(code: seq<Instr>, st: State): seq<Instr> {
    st.allocas + code + (if st.terminated then [] else [Ret(Some("0"))])
  }

  function StripAt(name: string): string {
    if name == "" then ""
    else if name[0] == '@' then StripAt(name[1..])
    else [name[0]] + StripAt(name[1..])
  }

  /** The name without its `@`s. */
  lemma {:induction false} StripAtIs(name: string, rest: string)
    ensures '@' !in StripAt(name) && ('@' !in name ==> StripAt(name) == name)
    ensures StripAt("@" + name) == StripAt(name) && StripAt(name + rest) == StripAt(name) + StripAt(rest)
  {
    assert ("@" + name)[1..] == name;
    if name == "" {
      assert name + rest == rest;
    } else {
      StripAtIs(name[1..], rest);
      assert (name + rest)[1..] == name[1..] + rest;
    }
  }

  function TypedParams(params: seq<string>): (r: seq<(string, Type)>)
    ensures |r| == |params|
  {
    seq(|params|, i requires 0 <= i < |params| => (params[i], I64))
  }

  function LoweredFunction(f: S.FunctionDecl): Option<Function> {
    match LoweredStmt(StripAt(f.name), f.body, ParamState(f.params))
    case None => None
    case Some(b) =>
      Some(Function(f.name, TypedParams(f.params), Some(I64), Finished(ParamStores(f.params) + b.code, b.state)))
  }

  // ----- Facts about what is emitted -----

  // Every slot is spelled after its variable.
  ghost predicate SlotsNamed(slots: map<string, string>) {
    forall x | x in slots :: slots[x] == SlotName(x)
  }

  // The allocas are the slots, each once.
  ghost predicate Consistent(allocas: seq<Instr>, slots: map<string, string>) {
    && SlotsNamed(slots)
    && (forall x | x in slots :: Alloca(SlotName(x)) in allocas)
    && (forall i | 0 <= i < |allocas| :: exists x :: x in slots && allocas[i] == Alloca(SlotName(x)))
    && (forall i, j | 0 <= i < j < |allocas| :: allocas[i] != allocas[j])
  }

  lemma BranchToOpen(target: string)
    ensures BranchTo(false, target) == [Br(target)]
  {
  }

  lemma ConsistentNames(allocas: seq<Instr>, slots: map<string, string>)
    requires Consistent(allocas, slots)
    ensures SlotsNamed(slots)
  {
  }

  lemma SlotIsNew(allocas: seq<Instr>, slots: map<string, string>, name: string)
    requires Consistent(allocas, slots) && name !in slots
    ensures Alloca(SlotName(name)) !in allocas
  {
    hide SlotName;
    if Alloca(SlotName(name)) in allocas {
      var i :| 0 <= i < |allocas| && allocas[i] == Alloca(SlotName(name));
      var x :| x in slots && allocas[i] == Alloca(SlotName(x));
      SlotNameInjective(x, name);
    }
  }

  lemma SlotAdded(st: State, name: string)
    requires Consistent(st.allocas, st.slots)
    ensures Consistent(WithSlot(st, name).allocas, WithSlot(st, name).slots)
  {
    hide SlotName;
    if name !in st.slots {
      SlotIsNew(st.allocas, st.slots, name);
      AllocasNamed(st.allocas, st.slots, name);
    }
  }

  lemma AllocasNamed(allocas: seq<Instr>, slots: map<string, string>, name: string)
    requires Consistent(allocas, slots) && name !in slots
    ensures var allocas', slots' := allocas + [Alloca(SlotName(name))], slots[name := SlotName(name)];
      && (forall i | 0 <= i < |allocas'| :: exists x :: x in slots' && allocas'[i] == Alloca(SlotName(x)))
      && (forall x | x in slots' :: Alloca(SlotName(x)) in allocas')
  {
    hide SlotName;
    var allocas', slots' := allocas + [Alloca(SlotName(name))], slots[name := SlotName(name)];
    forall i | 0 <= i < |allocas'|
      ensures exists x :: x in slots' && allocas'[i] == Alloca(SlotName(x))
    {
      if i < |allocas| {
        assert allocas'[i] == allocas[i];
        var x :| x in slots && allocas[i] == Alloca(SlotName(x));
        assert x in slots';
      } else {
        assert name in slots';
      }
    }
    forall x | x in slots'
      ensures Alloca(SlotName(x)) in allocas'
    {
      if x == name {
        assert allocas'[|allocas|] == Alloca(SlotName(name));
      } else {
        assert x in slots && Alloca(SlotName(x)) in allocas;
      }
    }
  }

  lemma {:induction false} StmtShape(fname: string, s: S.Stmt, st: State)
    requires Consistent(st.allocas, st.slots) && LoweredStmt(fname, s, st).Some?
    ensures var r := LoweredStmt(fname, s, st).value;
      Consistent(r.state.allocas, r.state.slots) && st.slots.Keys <= r.state.slots.Keys
    decreases s, 1
  {
    hide LoweredExpr, IfCode, WhileCode, Consistent;
    if !st.terminated {
      match s
      case Let(pattern, init) =>
        SlotAdded(st.(nextTmp := LoweredExpr(init, st.slots, st.nextTmp).value.nextTmp), pattern.name);
      case Block(stmts) => SeqShape(fname, stmts, st);
      case If(cond, thenBranch, elseBranch) =>
        var c := LoweredExpr(cond, st.slots, st.nextTmp).value;
        var st1 := st.(nextTmp := c.nextTmp, nextLbl := st.nextLbl + if elseBranch.Some? then 3 else 2);
        StmtShape(fname, thenBranch, st1);
        if elseBranch.Some? {
          StmtShape(fname, elseBranch.value, LoweredStmt(fname, thenBranch, st1).value.state.(terminated := false));
        }
      case While(cond, body) =>
        var c := LoweredExpr(cond, st.slots, st.nextTmp).value;
        StmtShape(fname, body, st.(nextTmp := c.nextTmp, nextLbl := st.nextLbl + 3));
      case _ =>
    }
  }

  lemma {:induction false} SeqShape(fname: string, stmts: seq<S.Stmt>, st: State)
    requires Consistent(st.allocas, st.slots) && LoweredSeq(fname, stmts, st).Some?
    ensures var r := LoweredSeq(fname, stmts, st).value;
      Consistent(r.state.allocas, r.state.slots) && st.slots.Keys <= r.state.slots.Keys
    decreases stmts, 0
  {
    if stmts != [] {
      StmtShape(fname, stmts[0], st);
      SeqShape(fname, stmts[1..], LoweredStmt(fname, stmts[0], st).value.state);
    }
  }

  // The pieces of a lowered `if`.
  datatype IfParts = IfParts(cond: ExprCode, thenState: State, thenPart: StmtCode, elseState: State,
      elsePart: Option<StmtCode>,
                             thenBB: string, elseBB: string, mergeBB: string)

  lemma IfLayout(fname: string, s: S.Stmt, st: State) returns (p: IfParts)
    requires s.If? && !st.terminated && LoweredStmt(fname, s, st).Some?
    ensures LoweredExpr(s.cond, st.slots, st.nextTmp) == Some(p.cond)
    ensures LoweredStmt(fname, s.thenBranch, p.thenState) == Some(p.thenPart)
    ensures p.elsePart.Some? == s.elseBranch.Some?
    ensures s.elseBranch.Some? ==> LoweredStmt(fname, s.elseBranch.value, p.elseState) == p.elsePart
    ensures !p.thenState.terminated && p.thenState.nextTmp == p.cond.nextTmp && p.thenState.slots == st.slots
      && p.thenState.allocas == st.allocas && p.elseState == p.thenPart.state.(terminated := false)
    ensures p.elsePart.None? ==> p.elseBB == p.mergeBB
    ensures LoweredStmt(fname, s, st).value.code
      == IfCode(p.cond, p.thenPart, p.elsePart, p.thenBB, p.elseBB, p.mergeBB)
    ensures LoweredStmt(fname, s, st).value.state
            == (if p.elsePart.Some? then p.elsePart.value.state else p.elseState).(terminated := false)
  {
    hide IfCode, LabelName, LoweredExpr;
    var c := LoweredExpr(s.cond, st.slots, st.nextTmp).value;
    var hasElse := s.elseBranch.Some?;
    var mergeBB := LabelName(fname, "merge", st.nextLbl + 1);
    var st1 := st.(nextTmp := c.nextTmp, nextLbl := st.nextLbl + if hasElse then 3 else 2);
    var t := LoweredStmt(fname, s.thenBranch, st1).value;
    var st2 := t.state.(terminated := false);
    p := IfParts(c, st1, t, st2, if hasElse then LoweredStmt(fname, s.elseBranch.value, st2) else None,
                 LabelName(fname, "then", st.nextLbl), if hasElse then LabelName(fname, "else", st.nextLbl + 2)
                   else mergeBB, mergeBB);
  }

  datatype WhileParts = WhileParts(cond: ExprCode, bodyState: State, body: StmtCode, headBB: string, bodyBB: string,
      exitBB: string)

  lemma WhileLayout(fname: string, s: S.Stmt, st: State) returns (p: WhileParts)
    requires s.While? && !st.terminated && LoweredStmt(fname, s, st).Some?
    ensures LoweredExpr(s.cond, st.slots, st.nextTmp) == Some(p.cond)
    ensures LoweredStmt(fname, s.body, p.bodyState) == Some(p.body)
    ensures p.bodyState.nextTmp == p.cond.nextTmp && p.bodyState.slots == st.slots && p.bodyState.allocas == st.allocas
      && !p.bodyState.terminated
    ensures LoweredStmt(fname, s, st).value.state == p.body.state.(terminated := false)
    ensures LoweredStmt(fname, s, st).value.code == WhileCode(p.cond, p.body, p.headBB, p.bodyBB, p.exitBB)
  {
    hide WhileCode, LabelName, LoweredExpr;
    var c := LoweredExpr(s.cond, st.slots, st.nextTmp).value;
    var st1 := st.(nextTmp := c.nextTmp, nextLbl := st.nextLbl + 3);
    p := WhileParts(c, st1, LoweredStmt(fname, s.body, st1).value, LabelName(fname, "while_head", st.nextLbl),
                    LabelName(fname, "while_body", st.nextLbl + 1), LabelName(fname, "while_exit", st.nextLbl + 2));
  }
}
