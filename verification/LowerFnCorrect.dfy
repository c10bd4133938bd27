/** Lowering preserves meaning: the emitted code returns, traps and diverges exactly when
    the source does, with the same value and the same calls in the same order. */
module LowerFnCorrect {
  import opened Names
  import opened Ir
  import opened LowerFn
  import S = Source

  // ----- Running a stretch of code inside a larger listing -----

  ghost predicate CodeAt(code: seq<Instr>, off: nat, part: seq<Instr>) {
    off + |part| <= |code| && code[off..off + |part|] == part
  }

  lemma WholeCode(code: seq<Instr>)
    ensures CodeAt(code, 0, code)
  {
  }

  lemma CodeAtSplit(code: seq<Instr>, off: nat, a: seq<Instr>, b: seq<Instr>)
    requires CodeAt(code, off, a + b)
    ensures CodeAt(code, off, a) && CodeAt(code, off + |a|, b)
  {
    var whole := code[off..off + |a + b|];
    assert whole[..|a|] == a && whole[|a|..] == b;
  }

  lemma CodeAtFirst(code: seq<Instr>, off: nat, part: seq<Instr>)
    requires CodeAt(code, off, part) && part != []
    ensures off < |code| && code[off] == part[0]
  {
    assert code[off] == code[off..off + |part|][0];
  }

  lemma CodeAtPair(code: seq<Instr>, off: nat, part: seq<Instr>)
    requires CodeAt(code, off, part) && |part| == 2
    ensures off + 1 < |code| && code[off] == part[0] && code[off + 1] == part[1]
  {
    assert code[off + 1] == code[off..off + 2][1];
  }

  // Run n steps, then one instruction known to be at the reached position.
  lemma Then(code: seq<Instr>, oracle: Oracle, c: Config, n: nat, mid: Config, m: nat, last: Config)
    requires Steps(code, oracle, c, n) == mid && Steps(code, oracle, mid, m) == last
    ensures Steps(code, oracle, c, n + m) == last
  {
    StepsCompose(code, oracle, c, n, m);
  }

  lemma Zero(code: seq<Instr>, oracle: Oracle, c: Config)
    ensures Steps(code, oracle, c, 0) == c
  {
  }

  lemma One(code: seq<Instr>, oracle: Oracle, c: Config)
    ensures Steps(code, oracle, c, 1) == Step(code, oracle, c)
  {
    assert Steps(code, oracle, Step(code, oracle, c), 0) == Step(code, oracle, c);
  }

  // ----- Invariants of a run -----

  // Temporaries numbered below t keep their values.
  ghost predicate SameBelow(env: map<string, int>, env': map<string, int>, t: nat) {
    forall k: nat {:trigger TmpName(k)} | k < t && TmpName(k) in env ::
      TmpName(k) in env' && env'[TmpName(k)] == env[TmpName(k)]
  }

  ghost predicate OperandBelow(operand: string, t: nat) {
    IsInteger(operand) || exists k: nat {:trigger TmpName(k)} :: k < t && operand == TmpName(k)
  }

  // Slots hold the values of the variables they are spelled after.
  ghost predicate Agree(vars: set<string>, slots: map<string, int>, store: S.Store) {
    forall x | x in vars :: SlotName(x) in slots && slots[SlotName(x)] == S.Read(store, x)
  }

  ghost predicate SlotsFor(slots: map<string, string>, vars: set<string>) {
    SlotsNamed(slots) && slots.Keys <= vars
  }

  lemma OperandKept(env: map<string, int>, env': map<string, int>, operand: string, t: nat)
    requires SameBelow(env, env', t) && OperandBelow(operand, t)
    requires Operand(env, operand).Some?
    ensures Operand(env', operand) == Operand(env, operand)
  {
  }

  lemma {:induction false} OperandsKept(env: map<string, int>, env': map<string, int>, operands: seq<string>, t: nat)
    requires SameBelow(env, env', t) && forall o | o in operands :: OperandBelow(o, t)
    requires Operands(env, operands).Some?
    ensures Operands(env', operands) == Operands(env, operands)
  {
    if operands != [] {
      OperandsKept(env, env', operands[..|operands| - 1], t);
      OperandKept(env, env', operands[|operands| - 1], t);
    }
  }

  lemma FreshTmp(env: map<string, int>, t: nat, u: nat, v: int)
    requires t <= u
    ensures SameBelow(env, env[TmpName(u) := v], t)
    ensures Operand(env[TmpName(u) := v], TmpName(u)) == Some(v)
    ensures OperandBelow(TmpName(u), u + 1)
  {
    TmpNameIsNotInteger(u);
    forall k: nat {:trigger TmpName(k)} | k < t && TmpName(k) in env
      ensures env[TmpName(u) := v][TmpName(k)] == env[TmpName(k)]
    {
      if TmpName(k) == TmpName(u) {
        TmpNameInjective(k, u);
      }
    }
  }

  lemma {:induction false} ExprShape(e: S.Expr, slots: map<string, string>, t: nat)
    requires LoweredExpr(e, slots, t).Some?
    ensures var c := LoweredExpr(e, slots, t).value; t <= c.nextTmp && OperandBelow(c.operand, c.nextTmp)
    decreases e, 1
  {
    match e
    case IntLit(n) => IntRoundTrip(n);
    case BoolLit(b) =>
    case Variable(x) => assert TmpName(t) == TmpName(t);
    case Grouping(inner) => ExprShape(inner, slots, t);
    case Unary(op, right) => ExprShape(right, slots, t);
    case Binary(left, op, right) =>
      ExprShape(left, slots, t);
      ExprShape(right, slots, LoweredExpr(left, slots, t).value.nextTmp);
    case Call(callee, args) => ArgsShape(args, slots, t);
    case OtherExpr =>
  }

  lemma {:induction false} ArgsShape(args: seq<S.Expr>, slots: map<string, string>, t: nat)
    requires LoweredArgs(args, slots, t).Some?
    ensures var c := LoweredArgs(args, slots, t).value;
      t <= c.nextTmp && forall o | o in c.operands :: OperandBelow(o, c.nextTmp)
    decreases args, 0
  {
    if args != [] {
      ArgsShape(args[..|args| - 1], slots, t);
      var a := LoweredArgs(args[..|args| - 1], slots, t).value;
      ExprShape(args[|args| - 1], slots, a.nextTmp);
    }
  }

  // ----- Expressions -----

  ghost predicate ExprRun(
    code: seq<Instr>, oracle: Oracle, off: nat, frame: Frame, trace: seq<Event>,
    part: ExprCode, t: nat, result: S.Value, n: nat, env': map<string, int>)
  {
    var end := Steps(code, oracle, Running(off, frame, trace), n);
    match result
    case Val(v, trace') =>
      end == Running(off + |part.code|, frame.(env := env'), trace')
      && Operand(env', part.operand) == Some(v) && SameBelow(frame.env, env', t)
    case Trap(trace') => end == Trapped(trace')
    case NoValue => false
  }

  ghost predicate ArgsRun(
    code: seq<Instr>, oracle: Oracle, off: nat, frame: Frame, trace: seq<Event>,
    part: ArgsCode, t: nat, result: S.Values, n: nat, env': map<string, int>)
  {
    var end := Steps(code, oracle, Running(off, frame, trace), n);
    match result
    case Vals(vs, trace') =>
      end == Running(off + |part.code|, frame.(env := env'), trace')
      && Operands(env', part.operands) == Some(vs) && SameBelow(frame.env, env', t)
    case TrapInList(trace') => end == Trapped(trace')
    case NoValues => false
  }

  lemma SameBelowTrans(e0: map<string, int>, e1: map<string, int>, e2: map<string, int>, t: nat, u: nat)
    requires t <= u && SameBelow(e0, e1, t) && SameBelow(e1, e2, u)
    ensures SameBelow(e0, e2, t)
  {
  }

  lemma SameBelowRefl(env: map<string, int>, t: nat)
    ensures SameBelow(env, env, t)
  {
  }

  // The operators mean the same on both sides.
  lemma BinaryAgrees(op: string, dest: string, l: string, r: string, a: int, b: int, trace: seq<Event>)
    requires BinaryInstr(op, dest, l, r).Some?
    ensures match BinaryInstr(op, dest, l, r).value
      case Arith(o, d, x, y) =>
        d == dest && x == l && y == r
        && S.Apply(op, a, b, trace)
          == (match Compute(o, a, b) case Some(v) => S.Val(v, trace) case None => S.Trap(trace))
      case ICmp(d, p, x, y) => d == dest && x == l && y == r
        && S.Apply(op, a, b, trace) == S.Val(Compare(p, a, b), trace)
      case _ => false
  {
  }

  // One more instruction that defines temporary u, at the end of a run of n steps.
  ghost predicate Defines(code: seq<Instr>, oracle: Oracle, pc: nat, frame: Frame, trace: seq<Event>, u: nat,
      result: S.Value) {
    var end := Step(code, oracle, Running(pc, frame, trace));
    match result
    case Val(v, trace') => end == Running(pc + 1, frame.(env := frame.env[TmpName(u) := v]), trace')
    case Trap(trace') => end == Trapped(trace')
    case NoValue => false
  }

  lemma DefineLast(
    code: seq<Instr>, oracle: Oracle, start: Config, n: nat, pc: nat, frame: Frame, trace: seq<Event>,
    t: nat, u: nat, result: S.Value) returns (env': map<string, int>)
    requires Steps(code, oracle, start, n) == Running(pc, frame, trace)
    requires t <= u && Defines(code, oracle, pc, frame, trace, u, result)
    ensures match result
      case Val(v, trace') =>
        Steps(code, oracle, start, n + 1) == Running(pc + 1, frame.(env := env'), trace')
        && Operand(env', TmpName(u)) == Some(v) && SameBelow(frame.env, env', t)
      case Trap(trace') => Steps(code, oracle, start, n + 1) == Trapped(trace')
      case NoValue => false
  {
    var mid := Running(pc, frame, trace);
    One(code, oracle, mid);
    Then(code, oracle, start, n, mid, 1, Step(code, oracle, mid));
    env' := frame.env;
    if result.Val? {
      env' := frame.env[TmpName(u) := result.value];
      FreshTmp(frame.env, t, u, result.value);
    }
  }

  lemma DefinesBinary(
    code: seq<Instr>, oracle: Oracle, pc: nat, frame: Frame, trace: seq<Event>, u: nat,
    op: string, l: string, r: string, a: int, b: int)
    requires BinaryInstr(op, TmpName(u), l, r).Some?
    requires pc < |code| && code[pc] == BinaryInstr(op, TmpName(u), l, r).value
    requires Operand(frame.env, l) == Some(a) && Operand(frame.env, r) == Some(b)
    ensures Defines(code, oracle, pc, frame, trace, u, S.Apply(op, a, b, trace))
  {
    BinaryAgrees(op, TmpName(u), l, r, a, b, trace);
  }

  lemma DefinesNegation(
    code: seq<Instr>, oracle: Oracle, pc: nat, frame: Frame, trace: seq<Event>, u: nat, r: string, a: int)
    requires pc < |code| && code[pc] == Arith(Sub, TmpName(u), "0", r)
    requires Operand(frame.env, r) == Some(a)
    ensures Defines(code, oracle, pc, frame, trace, u, S.Val(Wrap(-a), trace))
  {
    ZeroOperand(frame.env);
  }

  lemma DefinesCall(
    code: seq<Instr>, oracle: Oracle, pc: nat, frame: Frame, trace: seq<Event>, u: nat,
    callee: string, operands: seq<string>, vs: seq<int>)
    requires pc < |code| && code[pc] == Ir.Call(TmpName(u), callee, operands)
    requires Operands(frame.env, operands) == Some(vs)
    ensures Defines(code, oracle, pc, frame, trace, u,
                    match oracle(trace, callee, vs)
                    case Some(v) => S.Val(v, trace + [Event(callee, vs)])
                    case None => S.Trap(trace + [Event(callee, vs)]))
  {
  }

  lemma ZeroOperand(env: map<string, int>)
    ensures Operand(env, "0") == Some(0) && Operand(env, "1") == Some(1)
  {
    assert ParseInt("1") == 1 && ParseInt("0") == 0 by { assert "1"[..0] == "" && "0"[..0] == ""; }
  }

  // A literal is its own operand.
  lemma ConstantSim(
    code: seq<Instr>, oracle: Oracle, e: S.Expr, slots: map<string, string>, t: nat,
    off: nat, frame: Frame, trace: seq<Event>, store: S.Store)
    requires e.IntLit? || e.BoolLit?
    ensures LoweredExpr(e, slots, t).Some?
    ensures ExprRun(code, oracle, off, frame, trace, LoweredExpr(e, slots, t).value, t,
                    S.Eval(e, store, trace, oracle), 0, frame.env)
  {
    match e
    case IntLit(k) => IntRoundTrip(k);
    case BoolLit(_) => ZeroOperand(frame.env);
  }

  // A variable is loaded from its slot.
  lemma VariableSim(
    code: seq<Instr>, oracle: Oracle, e: S.Expr, slots: map<string, string>, vars: set<string>, t: nat,
    off: nat, frame: Frame, trace: seq<Event>, store: S.Store)
    returns (n: nat, env': map<string, int>)
    requires e.Variable? && LoweredExpr(e, slots, t).Some?
    requires SlotsFor(slots, vars) && Agree(vars, frame.slots, store)
    requires CodeAt(code, off, LoweredExpr(e, slots, t).value.code)
    ensures ExprRun(code, oracle, off, frame, trace, LoweredExpr(e, slots, t).value, t,
                    S.Eval(e, store, trace, oracle), n, env')
  {
    var v := S.Val(S.Read(store, e.name), trace);
    CodeAtFirst(code, off, LoweredExpr(e, slots, t).value.code);
    assert Defines(code, oracle, off, frame, trace, t, v);
    hide Steps, Step, CodeAt, Agree;
    env' := DefineLast(code, oracle, Running(off, frame, trace), 0, off, frame, trace, t, t, v) by {
      Zero(code, oracle, Running(off, frame, trace));
    }
    n := 1;
  }

  lemma {:induction false} ExprSim(
    code: seq<Instr>, oracle: Oracle, e: S.Expr, slots: map<string, string>, vars: set<string>, t: nat,
    off: nat, frame: Frame, trace: seq<Event>, store: S.Store)
    returns (n: nat, env': map<string, int>)
    requires LoweredExpr(e, slots, t).Some?
    requires SlotsFor(slots, vars) && Agree(vars, frame.slots, store)
    requires CodeAt(code, off, LoweredExpr(e, slots, t).value.code)
    ensures ExprRun(code, oracle, off, frame, trace, LoweredExpr(e, slots, t).value, t,
                    S.Eval(e, store, trace, oracle), n, env')
    decreases e, 2
  {
    hide ExprRun, Steps, Step, Operand, CodeAt, Agree, SlotsFor, BinaryInstr, S.Apply;
    n, env' := 0, frame.env;
    match e
    case IntLit(_) =>
      ConstantSim(code, oracle, e, slots, t, off, frame, trace, store);
    case BoolLit(_) =>
      ConstantSim(code, oracle, e, slots, t, off, frame, trace, store);
    case Variable(x) =>
      n, env' := VariableSim(code, oracle, e, slots, vars, t, off, frame, trace, store);
    case Grouping(inner) =>
      n, env' := ExprSim(code, oracle, inner, slots, vars, t, off, frame, trace, store);
    case Unary(_, _) =>
      n, env' := UnarySim(code, oracle, e, slots, vars, t, off, frame, trace, store);
    case Binary(_, _, _) =>
      n, env' := BinarySim(code, oracle, e, slots, vars, t, off, frame, trace, store);
    case Call(_, _) =>
      n, env' := CallSim(code, oracle, e, slots, vars, t, off, frame, trace, store);
    case OtherExpr =>
  }

  lemma {:induction false} UnarySim(
    code: seq<Instr>, oracle: Oracle, e: S.Expr, slots: map<string, string>, vars: set<string>, t: nat,
    off: nat, frame: Frame, trace: seq<Event>, store: S.Store)
    returns (n: nat, env': map<string, int>)
    requires e.Unary? && LoweredExpr(e, slots, t).Some?
    requires SlotsFor(slots, vars) && Agree(vars, frame.slots, store)
    requires CodeAt(code, off, LoweredExpr(e, slots, t).value.code)
    ensures ExprRun(code, oracle, off, frame, trace, LoweredExpr(e, slots, t).value, t,
                    S.Eval(e, store, trace, oracle), n, env')
    decreases e, 1
  {
    hide Steps, Step, Operand, SameBelow, OperandBelow, Agree, SlotsFor, Defines, BinaryInstr, S.Apply;
    var r := LoweredExpr(e.right, slots, t).value;
    var last := [Arith(Sub, TmpName(r.nextTmp), "0", r.operand)];
    CodeAtSplit(code, off, r.code, last);
    n, env' := ExprSim(code, oracle, e.right, slots, vars, t, off, frame, trace, store);
    ExprShape(e.right, slots, t);
    var res := S.Eval(e.right, store, trace, oracle);
    if res.Val? {
      CodeAtFirst(code, off + |r.code|, last);
      var frame1 := frame.(env := env');
      var v := S.Val(Wrap(-res.value), res.trace);
      DefinesNegation(code, oracle, off + |r.code|, frame1, res.trace, r.nextTmp, r.operand, res.value);
      var env2 := DefineLast(code, oracle, Running(off, frame, trace), n, off + |r.code|, frame1, res.trace, t,
        r.nextTmp, v);
      SameBelowTrans(frame.env, env', env2, t, t);
      n, env' := n + 1, env2;
    }
  }

  // The code of an operation, and its value.
  lemma BinaryLayout(e: S.Expr, slots: map<string, string>, t: nat)
    requires e.Binary? && LoweredExpr(e, slots, t).Some?
    ensures LoweredExpr(e.left, slots, t).Some?
    ensures var l := LoweredExpr(e.left, slots, t).value;
      LoweredExpr(e.right, slots, l.nextTmp).Some?
    ensures var l := LoweredExpr(e.left, slots, t).value;
      var r := LoweredExpr(e.right, slots, l.nextTmp).value;
      var i := BinaryInstr(e.op, TmpName(r.nextTmp), l.operand, r.operand);
      i.Some? && LoweredExpr(e, slots, t)
                 == Some(ExprCode(l.code + r.code + [i.value], TmpName(r.nextTmp), r.nextTmp + 1))
  {
    hide BinaryInstr;
  }

  lemma BinaryValue(e: S.Expr, store: S.Store, trace: S.Trace, oracle: Oracle)
    requires e.Binary?
    ensures var l := S.Eval(e.left, store, trace, oracle);
      if !l.Val? then S.Eval(e, store, trace, oracle) == l
      else
        var r := S.Eval(e.right, store, l.trace, oracle);
        S.Eval(e, store, trace, oracle) == if r.Val? then S.Apply(e.op, l.value, r.value, r.trace) else r
  {
    hide S.Apply;
  }

  lemma {:induction false} BinarySim(
    code: seq<Instr>, oracle: Oracle, e: S.Expr, slots: map<string, string>, vars: set<string>, t: nat,
    off: nat, frame: Frame, trace: seq<Event>, store: S.Store)
    returns (n: nat, env': map<string, int>)
    requires e.Binary? && LoweredExpr(e, slots, t).Some?
    requires SlotsFor(slots, vars) && Agree(vars, frame.slots, store)
    requires CodeAt(code, off, LoweredExpr(e, slots, t).value.code)
    ensures ExprRun(code, oracle, off, frame, trace, LoweredExpr(e, slots, t).value, t,
                    S.Eval(e, store, trace, oracle), n, env')
    decreases e, 1
  {
    hide Steps, Step, Operand, SameBelow, OperandBelow, Agree, SlotsFor, Defines, BinaryInstr, S.Apply, CodeAt, S.Eval,
      LoweredExpr;
    var start := Running(off, frame, trace);
    BinaryLayout(e, slots, t);
    BinaryValue(e, store, trace, oracle);
    var l := LoweredExpr(e.left, slots, t).value;
    var r := LoweredExpr(e.right, slots, l.nextTmp).value;
    var last := [BinaryInstr(e.op, TmpName(r.nextTmp), l.operand, r.operand).value];
    CodeAtSplit(code, off, l.code + r.code, last);
    CodeAtSplit(code, off, l.code, r.code);
    n, env' := ExprSim(code, oracle, e.left, slots, vars, t, off, frame, trace, store);
    ExprShape(e.left, slots, t);
    var lv := S.Eval(e.left, store, trace, oracle);
    if lv.Val? {
      var n2, env2 := ExprSim(code, oracle, e.right, slots, vars, l.nextTmp, off + |l.code|, frame.(env := env'),
        lv.trace, store);
      ExprShape(e.right, slots, l.nextTmp);
      var rv := S.Eval(e.right, store, lv.trace, oracle);
      BothSides(code, oracle, off, frame, trace, l, r, t, lv, rv, n, env', n2, env2);
      n, env' := n + n2, env2;
      if rv.Val? {
        CodeAtFirst(code, off + |l.code| + |r.code|, last);
        env' := Applied(code, oracle, start, n, off + |l.code| + |r.code|, frame, rv.trace, t, r.nextTmp, env2, e.op,
          l.operand, r.operand, lv.value, rv.value);
        n := n + 1;
      }
    }
  }

  // Both operands have their values, in order.
  lemma BothSides(
    code: seq<Instr>, oracle: Oracle, off: nat, frame: Frame, trace: seq<Event>, l: ExprCode, r: ExprCode, t: nat,
    lv: S.Value, rv: S.Value, n: nat, env1: map<string, int>, n2: nat, env2: map<string, int>)
    requires t <= l.nextTmp && OperandBelow(l.operand, l.nextTmp) && lv.Val?
    requires ExprRun(code, oracle, off, frame, trace, l, t, lv, n, env1)
    requires ExprRun(code, oracle, off + |l.code|, frame.(env := env1), lv.trace, r, l.nextTmp, rv, n2, env2)
    ensures var end := Steps(code, oracle, Running(off, frame, trace), n + n2);
      match rv
      case Val(v, tr) =>
        end == Running(off + |l.code| + |r.code|, frame.(env := env2), tr) && SameBelow(frame.env, env2, t)
        && Operand(env2, l.operand) == Some(lv.value) && Operand(env2, r.operand) == Some(v)
      case Trap(tr) => end == Trapped(tr)
      case NoValue => false
  {
    hide Steps, Operand, SameBelow, OperandBelow;
    var mid := Running(off + |l.code|, frame.(env := env1), lv.trace);
    Then(code, oracle, Running(off, frame, trace), n, mid, n2, Steps(code, oracle, mid, n2));
    if rv.Val? {
      OperandKept(env1, env2, l.operand, l.nextTmp);
      SameBelowTrans(frame.env, env1, env2, t, l.nextTmp);
    }
  }

  // The operation itself, in the next temporary.
  lemma Applied(
    code: seq<Instr>, oracle: Oracle, start: Config, n: nat, pc: nat, frame: Frame, trace: seq<Event>, t: nat, u: nat,
    env2: map<string, int>, op: string, l: string, r: string, a: int, b: int)
    returns (env': map<string, int>)
    requires t <= u && SameBelow(frame.env, env2, t) && BinaryInstr(op, TmpName(u), l, r).Some?
    requires Steps(code, oracle, start, n) == Running(pc, frame.(env := env2), trace)
    requires pc < |code| && code[pc] == BinaryInstr(op, TmpName(u), l, r).value
    requires Operand(env2, l) == Some(a) && Operand(env2, r) == Some(b)
    ensures var end := Steps(code, oracle, start, n + 1);
      match S.Apply(op, a, b, trace)
      case Val(v, tr) =>
        end == Running(pc + 1, frame.(env := env'), tr) && Operand(env', TmpName(u)) == Some(v)
        && SameBelow(frame.env, env', t)
      case Trap(tr) => end == Trapped(tr)
      case NoValue => false
  {
    hide Steps, Step, Operand, SameBelow, Defines, BinaryInstr, S.Apply;
    var frame2 := frame.(env := env2);
    DefinesBinary(code, oracle, pc, frame2, trace, u, op, l, r, a, b);
    env' := DefineLast(code, oracle, start, n, pc, frame2, trace, t, u, S.Apply(op, a, b, trace));
    if S.Apply(op, a, b, trace).Val? {
      SameBelowTrans(frame.env, env2, env', t, t);
    }
  }

  lemma CallParts(e: S.Expr, slots: map<string, string>, t: nat, store: S.Store, trace: seq<Event>, oracle: Oracle)
    requires e.Call? && LoweredExpr(e, slots, t).Some?
    ensures e.callee.Variable? && LoweredArgs(e.args, slots, t).Some?
    ensures var a := LoweredArgs(e.args, slots, t).value;
      LoweredExpr(e, slots, t).value
      == ExprCode(a.code + [Ir.Call(TmpName(a.nextTmp), e.callee.name, a.operands)], TmpName(a.nextTmp), a.nextTmp + 1)
    ensures var res, v := S.EvalArgs(e.args, store, trace, oracle), S.Eval(e, store, trace, oracle);
      && (res.TrapInList? ==> v == S.Trap(res.trace))
      && (res.NoValues? ==> v == S.NoValue)
      && (res.Vals? ==>
            var event := [Event(e.callee.name, res.values)];
            v == match oracle(res.trace, e.callee.name, res.values)
                 case Some(x) => S.Val(x, res.trace + event)
                 case None => S.Trap(res.trace + event))
  {
  }

  lemma {:induction false} CallSim(
    code: seq<Instr>, oracle: Oracle, e: S.Expr, slots: map<string, string>, vars: set<string>, t: nat,
    off: nat, frame: Frame, trace: seq<Event>, store: S.Store)
    returns (n: nat, env': map<string, int>)
    requires e.Call? && LoweredExpr(e, slots, t).Some?
    requires SlotsFor(slots, vars) && Agree(vars, frame.slots, store)
    requires CodeAt(code, off, LoweredExpr(e, slots, t).value.code)
    ensures ExprRun(code, oracle, off, frame, trace, LoweredExpr(e, slots, t).value, t,
                    S.Eval(e, store, trace, oracle), n, env')
    decreases e, 1
  {
    hide Steps, Step, Operand, SameBelow, OperandBelow, Agree, SlotsFor, Defines, LoweredExpr, LoweredArgs, S.Eval,
      S.EvalArgs;
    CallParts(e, slots, t, store, trace, oracle);
    var a := LoweredArgs(e.args, slots, t).value;
    var last := [Ir.Call(TmpName(a.nextTmp), e.callee.name, a.operands)];
    CodeAtSplit(code, off, a.code, last);
    n, env' := ArgsSim(code, oracle, e.args, slots, vars, t, off, frame, trace, store);
    ArgsShape(e.args, slots, t);
    var res := S.EvalArgs(e.args, store, trace, oracle);
    if res.Vals? {
      CodeAtFirst(code, off + |a.code|, last);
      var frame1 := frame.(env := env');
      var v := S.Eval(e, store, trace, oracle);
      DefinesCall(code, oracle, off + |a.code|, frame1, res.trace, a.nextTmp, e.callee.name, a.operands, res.values);
      var env2 := DefineLast(code, oracle, Running(off, frame, trace), n, off + |a.code|, frame1, res.trace, t,
        a.nextTmp, v);
      if v.Val? {
        SameBelowTrans(frame.env, env', env2, t, t);
      }
      n, env' := n + 1, env2;
    }
  }

  // The values of the list once its last argument has one.
  function Appended(vs: seq<int>, last: S.Value): S.Values {
    match last
    case Val(v, trace) => S.Vals(vs + [v], trace)
    case Trap(trace) => S.TrapInList(trace)
    case NoValue => S.NoValues
  }

  lemma ArgsStep(
    code: seq<Instr>, oracle: Oracle, off: nat, frame: Frame, trace: seq<Event>, a: ArgsCode, l: ExprCode, t: nat,
    vs: seq<int>, trace1: seq<Event>, last: S.Value, n: nat, env1: map<string, int>, n2: nat, env2: map<string, int>)
    requires t <= a.nextTmp && forall o | o in a.operands :: OperandBelow(o, a.nextTmp)
    requires ArgsRun(code, oracle, off, frame, trace, a, t, S.Vals(vs, trace1), n, env1)
    requires ExprRun(code, oracle, off + |a.code|, frame.(env := env1), trace1, l, a.nextTmp, last, n2, env2)
    ensures ArgsRun(code, oracle, off, frame, trace, ArgsCode(a.code + l.code, a.operands + [l.operand], l.nextTmp), t,
                    Appended(vs, last), n + n2, env2)
  {
    hide Steps, Operand, Operands, SameBelow, OperandBelow;
    var mid := Running(off + |a.code|, frame.(env := env1), trace1);
    Then(code, oracle, Running(off, frame, trace), n, mid, n2, Steps(code, oracle, mid, n2));
    if last.Val? {
      OperandsKept(env1, env2, a.operands, a.nextTmp);
      OperandsMore(env2, a.operands, l.operand, vs, last.value);
      SameBelowTrans(frame.env, env1, env2, t, a.nextTmp);
    }
  }

  lemma OperandsMore(env: map<string, int>, operands: seq<string>, o: string, vs: seq<int>, v: int)
    requires Operands(env, operands) == Some(vs) && Operand(env, o) == Some(v)
    ensures Operands(env, operands + [o]) == Some(vs + [v])
  {
    hide Operand;
    assert (operands + [o])[..|operands|] == operands;
  }

  lemma {:induction false} ArgsSim(
    code: seq<Instr>, oracle: Oracle, args: seq<S.Expr>, slots: map<string, string>, vars: set<string>, t: nat,
    off: nat, frame: Frame, trace: seq<Event>, store: S.Store)
    returns (n: nat, env': map<string, int>)
    requires LoweredArgs(args, slots, t).Some?
    requires SlotsFor(slots, vars) && Agree(vars, frame.slots, store)
    requires CodeAt(code, off, LoweredArgs(args, slots, t).value.code)
    ensures ArgsRun(code, oracle, off, frame, trace, LoweredArgs(args, slots, t).value, t,
                    S.EvalArgs(args, store, trace, oracle), n, env')
    decreases args, 0
  {
    hide Steps, Step, Operand, SameBelow, OperandBelow, Agree, SlotsFor, CodeAt, LoweredExpr, S.Eval;
    n, env' := 0, frame.env;
    SameBelowRefl(env', t);
    Zero(code, oracle, Running(off, frame, trace));
    if args != [] {
      var front, last := args[..|args| - 1], args[|args| - 1];
      var a := LoweredArgs(front, slots, t).value;
      var l := LoweredExpr(last, slots, a.nextTmp).value;
      CodeAtSplit(code, off, a.code, l.code);
      n, env' := ArgsSim(code, oracle, front, slots, vars, t, off, frame, trace, store);
      ArgsShape(front, slots, t);
      var res := S.EvalArgs(front, store, trace, oracle);
      if res.Vals? {
        var frame1 := frame.(env := env');
        var n2, env2 := ExprSim(code, oracle, last, slots, vars, a.nextTmp, off + |a.code|, frame1, res.trace, store);
        ArgsStep(code, oracle, off, frame, trace, a, l, t, res.values, res.trace,
          S.Eval(last, store, res.trace, oracle), n, env', n2, env2);
        n, env' := n + n2, env2;
      }
    }
  }

  // ----- Statements -----

  // A branch to a label reaches the label itself.
  ghost predicate LabelsResolve(code: seq<Instr>) {
    forall i | 0 <= i < |code| && code[i].Label? :: FindLabel(code, code[i].name) == i
  }

  // The configuration after entering the block whose label is at position i.
  function Entered(code: seq<Instr>, i: nat, frame: Frame, trace: seq<Event>): Config
    requires i < |code| && code[i].Label?
  {
    Running(i + 1, frame.(prev := frame.block, block := code[i].name), trace)
  }

  lemma EnterLabel(code: seq<Instr>, oracle: Oracle, start: Config, n: nat, i: nat, frame: Frame, trace: seq<Event>)
    requires i < |code| && code[i].Label? && Steps(code, oracle, start, n) == Running(i, frame, trace)
    ensures Steps(code, oracle, start, n + 1) == Entered(code, i, frame, trace)
  {
    One(code, oracle, Running(i, frame, trace));
    Then(code, oracle, start, n, Running(i, frame, trace), 1, Entered(code, i, frame, trace));
  }

  lemma TakeBranch(code: seq<Instr>, oracle: Oracle, start: Config, n: nat, pc: nat, i: nat, frame: Frame,
      trace: seq<Event>)
    requires LabelsResolve(code) && pc < |code| && i < |code|
    requires code[i].Label? && code[pc] == Br(code[i].name)
    requires Steps(code, oracle, start, n) == Running(pc, frame, trace)
    ensures Steps(code, oracle, start, n + 2) == Entered(code, i, frame, trace)
  {
    One(code, oracle, Running(pc, frame, trace));
    Then(code, oracle, start, n, Running(pc, frame, trace), 1, Running(i, frame, trace));
    EnterLabel(code, oracle, start, n + 1, i, frame, trace);
  }

  lemma TakeCondition(
    code: seq<Instr>, oracle: Oracle, start: Config, n: nat, pc: nat, i: nat, j: nat, frame: Frame, trace: seq<Event>,
      v: int)
    requires LabelsResolve(code) && pc < |code| && i < |code| && j < |code| && code[i].Label? && code[j].Label?
    requires code[pc].BrCond? && code[pc].ifTrue == code[i].name && code[pc].ifFalse == code[j].name
    requires Operand(frame.env, code[pc].cond) == Some(v)
    requires Steps(code, oracle, start, n) == Running(pc, frame, trace)
    ensures Steps(code, oracle, start, n + 2) == Entered(code, if v != 0 then i else j, frame, trace)
  {
    var k := if v != 0 then i else j;
    One(code, oracle, Running(pc, frame, trace));
    Then(code, oracle, start, n, Running(pc, frame, trace), 1, Running(k, frame, trace));
    EnterLabel(code, oracle, start, n + 1, k, frame, trace);
  }

  lemma StoreSlot(
    code: seq<Instr>, oracle: Oracle, start: Config, n: nat, pc: nat, frame: Frame, trace: seq<Event>,
    vars: set<string>, store: S.Store, x: string, operand: string, v: int) returns (frame': Frame)
    requires pc < |code| && code[pc] == Store(SlotName(x), operand) && x in vars
    requires Operand(frame.env, operand) == Some(v) && Agree(vars, frame.slots, store)
    requires Steps(code, oracle, start, n) == Running(pc, frame, trace)
    ensures Steps(code, oracle, start, n + 1) == Running(pc + 1, frame', trace)
    ensures frame' == frame.(slots := frame.slots[SlotName(x) := v]) && Agree(vars, frame'.slots, store[x := v])
  {
    frame' := frame.(slots := frame.slots[SlotName(x) := v]);
    One(code, oracle, Running(pc, frame, trace));
    Then(code, oracle, start, n, Running(pc, frame, trace), 1, Running(pc + 1, frame', trace));
    forall y | y in vars
      ensures frame'.slots[SlotName(y)] == S.Read(store[x := v], y)
    {
      if SlotName(y) == SlotName(x) {
        SlotNameInjective(x, y);
      }
    }
  }

  lemma ReturnOperand(
    code: seq<Instr>, oracle: Oracle, start: Config, n: nat, pc: nat, frame: Frame, trace: seq<Event>, operand: string,
      v: int)
    requires pc < |code| && code[pc] == Ret(Some(operand)) && Operand(frame.env, operand) == Some(v)
    requires Steps(code, oracle, start, n) == Running(pc, frame, trace)
    ensures Steps(code, oracle, start, n + 1) == Returned(Some(v), trace)
  {
    One(code, oracle, Running(pc, frame, trace));
    Then(code, oracle, start, n, Running(pc, frame, trace), 1, Returned(Some(v), trace));
  }

  ghost predicate StmtRun(
    code: seq<Instr>, oracle: Oracle, off: nat, frame: Frame, trace: seq<Event>, part: StmtCode, vars: set<string>,
    outcome: S.Outcome, fuel: nat, n: nat, frame': Frame)
  {
    var end := Steps(code, oracle, Running(off, frame, trace), n);
    match outcome
    case Next(store', trace') =>
      !part.state.terminated && end == Running(off + |part.code|, frame', trace') && Agree(vars, frame'.slots, store')
    case Done(v, trace') => end == Returned(Some(v), trace')
    case Fault(trace') => end == Trapped(trace')
    case OutOfFuel => end.Running? && n >= fuel
    case Wrong => false
  }

  // What every simulation lemma about a statement in state st asks for.
  ghost predicate Placed(code: seq<Instr>, off: nat, st: State, part: StmtCode, vars: set<string>, frame: Frame,
      store: S.Store) {
    && !st.terminated && Consistent(st.allocas, st.slots) && st.slots.Keys <= part.state.slots.Keys <= vars
    && LabelsResolve(code) && CodeAt(code, off, part.code) && Agree(vars, frame.slots, store)
  }

  lemma {:induction false} StmtSim(
    code: seq<Instr>, oracle: Oracle, fname: string, s: S.Stmt, st: State, vars: set<string>,
    off: nat, frame: Frame, trace: seq<Event>, store: S.Store, fuel: nat)
    returns (n: nat, frame': Frame)
    requires LoweredStmt(fname, s, st).Some?
    requires Placed(code, off, st, LoweredStmt(fname, s, st).value, vars, frame, store)
    ensures StmtRun(code, oracle, off, frame, trace, LoweredStmt(fname, s, st).value, vars,
                    S.Exec(s, store, trace, oracle, fuel), fuel, n, frame')
    decreases fuel, s, 2
  {
    hide Steps, Step, Consistent, LabelsResolve, FindLabel;
    ConsistentNames(st.allocas, st.slots);
    n, frame' := 0, frame;
    match s
    case Block(stmts) =>
      n, frame' := SeqSim(code, oracle, fname, stmts, st, vars, off, frame, trace, store, fuel);
    case Let(_, _) =>
      n, frame' := LetSim(code, oracle, fname, s, st, vars, off, frame, trace, store, fuel);
    case Expression(e) =>
      var env';
      n, env' := ExprSim(code, oracle, e, st.slots, vars, st.nextTmp, off, frame, trace, store);
      frame' := frame.(env := env');
    case Return(_) =>
      n, frame' := ReturnSim(code, oracle, fname, s, st, vars, off, frame, trace, store, fuel);
    case If(_, _, _) =>
      n, frame' := IfSim(code, oracle, fname, s, st, vars, off, frame, trace, store, fuel);
    case While(_, _) =>
      n, frame' := WhileSim(code, oracle, fname, s, st, vars, off, frame, trace, store, fuel);
    case Match(_, _) =>
    case OtherStmt =>
  }

  lemma {:induction false} LetSim(
    code: seq<Instr>, oracle: Oracle, fname: string, s: S.Stmt, st: State, vars: set<string>,
    off: nat, frame: Frame, trace: seq<Event>, store: S.Store, fuel: nat)
    returns (n: nat, frame': Frame)
    requires s.Let? && LoweredStmt(fname, s, st).Some?
    requires Placed(code, off, st, LoweredStmt(fname, s, st).value, vars, frame, store)
    ensures StmtRun(code, oracle, off, frame, trace, LoweredStmt(fname, s, st).value, vars,
                    S.Exec(s, store, trace, oracle, fuel), fuel, n, frame')
  {
    hide Steps, Step, Consistent, LabelsResolve, FindLabel, S.Eval, LoweredExpr, Operand;
    ConsistentNames(st.allocas, st.slots);
    var start := Running(off, frame, trace);
    frame' := frame;
    var x, v := s.pattern.name, LoweredExpr(s.init, st.slots, st.nextTmp).value;
    var last := [Store(SlotName(x), v.operand)];
    CodeAtSplit(code, off, v.code, last);
    var env';
    n, env' := ExprSim(code, oracle, s.init, st.slots, vars, st.nextTmp, off, frame, trace, store);
    var res := S.Eval(s.init, store, trace, oracle);
    if res.Val? {
      CodeAtFirst(code, off + |v.code|, last);
      frame' := StoreSlot(code, oracle, start, n, off + |v.code|, frame.(env := env'), res.trace, vars, store, x,
        v.operand, res.value);
      n := n + 1;
    }
  }

  lemma {:induction false} ReturnSim(
    code: seq<Instr>, oracle: Oracle, fname: string, s: S.Stmt, st: State, vars: set<string>,
    off: nat, frame: Frame, trace: seq<Event>, store: S.Store, fuel: nat)
    returns (n: nat, frame': Frame)
    requires s.Return? && LoweredStmt(fname, s, st).Some?
    requires Placed(code, off, st, LoweredStmt(fname, s, st).value, vars, frame, store)
    ensures StmtRun(code, oracle, off, frame, trace, LoweredStmt(fname, s, st).value, vars,
                    S.Exec(s, store, trace, oracle, fuel), fuel, n, frame')
  {
    hide Steps, Step, Consistent, LabelsResolve, FindLabel, S.Eval, LoweredExpr, Operand;
    ConsistentNames(st.allocas, st.slots);
    var start := Running(off, frame, trace);
    frame' := frame;
    if s.value.None? {
      CodeAtFirst(code, off, [Ret(Some("0"))]);
      ZeroOperand(frame.env);
      Zero(code, oracle, start);
      ReturnOperand(code, oracle, start, 0, off, frame, trace, "0", 0);
      n := 1;
    } else {
      var v := LoweredExpr(s.value.value, st.slots, st.nextTmp).value;
      CodeAtSplit(code, off, v.code, [Ret(Some(v.operand))]);
      var env';
      n, env' := ExprSim(code, oracle, s.value.value, st.slots, vars, st.nextTmp, off, frame, trace, store);
      var res := S.Eval(s.value.value, store, trace, oracle);
      if res.Val? {
        CodeAtFirst(code, off + |v.code|, [Ret(Some(v.operand))]);
        ReturnOperand(code, oracle, start, n, off + |v.code|, frame.(env := env'), res.trace, v.operand, res.value);
        n := n + 1;
      }
    }
  }

  lemma {:induction false} SeqSim(
    code: seq<Instr>, oracle: Oracle, fname: string, stmts: seq<S.Stmt>, st: State, vars: set<string>,
    off: nat, frame: Frame, trace: seq<Event>, store: S.Store, fuel: nat)
    returns (n: nat, frame': Frame)
    requires LoweredSeq(fname, stmts, st).Some?
    requires Placed(code, off, st, LoweredSeq(fname, stmts, st).value, vars, frame, store)
    ensures StmtRun(code, oracle, off, frame, trace, LoweredSeq(fname, stmts, st).value, vars,
                    S.ExecSeq(stmts, store, trace, oracle, fuel), fuel, n, frame')
    decreases fuel, stmts, 0
  {
    hide Steps, Step, Consistent, LabelsResolve, FindLabel, CodeAt, S.Exec, LoweredStmt, Agree;
    var start := Running(off, frame, trace);
    n, frame' := 0, frame;
    Zero(code, oracle, start);
    if stmts != [] {
      var h := LoweredStmt(fname, stmts[0], st).value;
      var r := LoweredSeq(fname, stmts[1..], h.state).value;
      CodeAtSplit(code, off, h.code, r.code);
      StmtShape(fname, stmts[0], st);
      SeqShape(fname, stmts[1..], h.state);
      n, frame' := StmtSim(code, oracle, fname, stmts[0], st, vars, off, frame, trace, store, fuel);
      var res := S.Exec(stmts[0], store, trace, oracle, fuel);
      if res.Next? {
        var n2, frame2 := SeqSim(code, oracle, fname, stmts[1..], h.state, vars, off + |h.code|, frame', res.trace,
          res.store, fuel);
        var mid := Running(off + |h.code|, frame', res.trace);
        Then(code, oracle, start, n, mid, n2, Steps(code, oracle, mid, n2));
        n, frame' := n + n2, frame2;
      }
    }
  }

  // From the end of a branch of an `if`, or of a loop body, to the label it continues at.
  lemma JoinAt(
    code: seq<Instr>, oracle: Oracle, start: Config, n: nat, pc: nat, i: nat, frame: Frame, trace: seq<Event>,
      falls: bool)
    returns (n': nat, frame': Frame)
    requires LabelsResolve(code) && i < |code| && code[i].Label?
    requires if falls then pc == i else pc < |code| && code[pc] == Br(code[i].name)
    requires Steps(code, oracle, start, n) == Running(pc, frame, trace)
    ensures n' > n && frame'.slots == frame.slots && Steps(code, oracle, start, n') == Running(i + 1, frame', trace)
  {
    frame' := Entered(code, i, frame, trace).frame;
    if falls {
      EnterLabel(code, oracle, start, n, i, frame, trace);
      n' := n + 1;
    } else {
      TakeBranch(code, oracle, start, n, pc, i, frame, trace);
      n' := n + 2;
    }
  }

  // Where the pieces of a lowered `if` lie.
  lemma IfPlaced(code: seq<Instr>, off: nat, p: IfParts) returns (pTest: nat, pElse: nat, pMerge: nat)
    requires CodeAt(code, off, IfCode(p.cond, p.thenPart, p.elsePart, p.thenBB, p.elseBB, p.mergeBB))
    requires p.elsePart.None? ==> p.elseBB == p.mergeBB
    ensures CodeAt(code, off, p.cond.code) && pTest == off + |p.cond.code|
    ensures pTest + 1 < |code| && code[pTest] == BrCond(p.cond.operand, p.thenBB, p.elseBB)
      && code[pTest + 1] == Label(p.thenBB)
    ensures CodeAt(code, pTest + 2, p.thenPart.code)
    ensures CodeAt(code, pTest + 2 + |p.thenPart.code|, BranchTo(p.thenPart.state.terminated, p.mergeBB))
    ensures pElse < |code| && code[pElse] == Label(p.elseBB)
    ensures p.elsePart.Some? ==>
      && CodeAt(code, pElse + 1, p.elsePart.value.code)
      && CodeAt(code, pElse + 1 + |p.elsePart.value.code|, BranchTo(p.elsePart.value.state.terminated, p.mergeBB))
    ensures p.elsePart.None? ==> pElse == pMerge
    ensures pMerge < |code| && code[pMerge] == Label(p.mergeBB)
    ensures pMerge + 1 == off + |IfCode(p.cond, p.thenPart, p.elsePart, p.thenBB, p.elseBB, p.mergeBB)|
  {
    hide CodeAt, BranchTo, ElseCode;
    var join := BranchTo(p.thenPart.state.terminated, p.mergeBB);
    var elseCode := ElseCode(p.elsePart, p.elseBB, p.mergeBB);
    pTest := TestPlaced(code, off, p.cond, p.thenBB, p.elseBB, p.thenPart, join + (elseCode + [Label(p.mergeBB)]));
    pElse := pTest + 2 + |p.thenPart.code| + |join|;
    pMerge := pElse + |elseCode|;
    CodeAtSplit(code, pTest + 2 + |p.thenPart.code|, join, elseCode + [Label(p.mergeBB)]);
    CodeAtSplit(code, pElse, elseCode, [Label(p.mergeBB)]);
    CodeAtFirst(code, pMerge, [Label(p.mergeBB)]);
    ElsePlaced(code, pElse, p.elsePart, p.elseBB, p.mergeBB);
  }

  // A condition, its test and the block the test falls into.
  lemma TestPlaced(code: seq<Instr>, off: nat, c: ExprCode, yes: string, no: string, b: StmtCode, rest: seq<Instr>)
      returns (pTest: nat)
    requires CodeAt(code, off, c.code + ([BrCond(c.operand, yes, no), Label(yes)] + (b.code + rest)))
    ensures CodeAt(code, off, c.code) && pTest == off + |c.code|
    ensures pTest + 1 < |code| && code[pTest] == BrCond(c.operand, yes, no) && code[pTest + 1] == Label(yes)
    ensures CodeAt(code, pTest + 2, b.code) && CodeAt(code, pTest + 2 + |b.code|, rest)
  {
    hide CodeAt;
    var test := [BrCond(c.operand, yes, no), Label(yes)];
    pTest := off + |c.code|;
    CodeAtSplit(code, off, c.code, test + (b.code + rest));
    CodeAtSplit(code, pTest, test, b.code + rest);
    CodeAtSplit(code, pTest + 2, b.code, rest);
    CodeAtPair(code, pTest, test);
  }

  lemma ElsePlaced(code: seq<Instr>, off: nat, e: Option<StmtCode>, elseBB: string, mergeBB: string)
    requires CodeAt(code, off, ElseCode(e, elseBB, mergeBB))
    ensures e.None? ==> ElseCode(e, elseBB, mergeBB) == []
    ensures e.Some? ==>
      && off < |code| && code[off] == Label(elseBB)
      && CodeAt(code, off + 1, e.value.code)
      && CodeAt(code, off + 1 + |e.value.code|, BranchTo(e.value.state.terminated, mergeBB))
  {
    hide CodeAt;
    if e.Some? {
      CodeAtSplit(code, off, [Label(elseBB)], e.value.code + BranchTo(e.value.state.terminated, mergeBB));
      CodeAtSplit(code, off + 1, e.value.code, BranchTo(e.value.state.terminated, mergeBB));
      CodeAtFirst(code, off, [Label(elseBB)]);
    }
  }

  lemma ExecIf(s: S.Stmt, store: S.Store, trace: seq<Event>, oracle: Oracle, fuel: nat)
    requires s.If?
    ensures var v, r := S.Eval(s.cond, store, trace, oracle), S.Exec(s, store, trace, oracle, fuel);
      && (v.Val? && v.value != 0 ==> r == S.Exec(s.thenBranch, store, v.trace, oracle, fuel))
      && (v.Val? && v.value == 0 ==>
            r == if s.elseBranch.Some? then S.Exec(s.elseBranch.value, store, v.trace, oracle, fuel)
              else S.Next(store, v.trace))
      && (v.Trap? ==> r == S.Fault(v.trace))
      && (v.NoValue? ==> r == S.Wrong)
  {
  }

  lemma ExecWhile(s: S.Stmt, store: S.Store, trace: seq<Event>, oracle: Oracle, fuel: nat)
    requires s.While?
    ensures fuel == 0 ==> S.Exec(s, store, trace, oracle, fuel) == S.OutOfFuel
    ensures fuel > 0 ==>
      var v, r := S.Eval(s.cond, store, trace, oracle), S.Exec(s, store, trace, oracle, fuel);
      && (v.Val? && v.value != 0 ==>
            var round := S.Exec(s.body, store, v.trace, oracle, fuel - 1);
            r == if round.Next? then S.Exec(s, round.store, round.trace, oracle, fuel - 1) else round)
      && (v.Val? && v.value == 0 ==> r == S.Next(store, v.trace))
      && (v.Trap? ==> r == S.Fault(v.trace))
      && (v.NoValue? ==> r == S.Wrong)
  {
  }

  lemma {:induction false} IfSim(
    code: seq<Instr>, oracle: Oracle, fname: string, s: S.Stmt, st: State, vars: set<string>,
    off: nat, frame: Frame, trace: seq<Event>, store: S.Store, fuel: nat)
    returns (n: nat, frame': Frame)
    requires s.If? && LoweredStmt(fname, s, st).Some?
    requires Placed(code, off, st, LoweredStmt(fname, s, st).value, vars, frame, store)
    ensures StmtRun(code, oracle, off, frame, trace, LoweredStmt(fname, s, st).value, vars,
                    S.Exec(s, store, trace, oracle, fuel), fuel, n, frame')
    decreases fuel, s, 1
  {
    hide Steps, Step, Consistent, LabelsResolve, FindLabel, S.Exec, S.Eval, LoweredExpr, LoweredStmt, Operand, IfCode,
      CodeAt;
    ConsistentNames(st.allocas, st.slots);
    var start := Running(off, frame, trace);
    var p := IfLayout(fname, s, st);
    var pTest, pElse, pMerge := IfPlaced(code, off, p);
    ExecIf(s, store, trace, oracle, fuel);
    StmtShape(fname, s.thenBranch, p.thenState);
    if p.elsePart.Some? {
      StmtShape(fname, s.elseBranch.value, p.elseState);
    }
    var env';
    n, env' := ExprSim(code, oracle, s.cond, st.slots, vars, st.nextTmp, off, frame, trace, store);
    frame' := frame.(env := env');
    var res := S.Eval(s.cond, store, trace, oracle);
    if res.Val? {
      TakeCondition(code, oracle, start, n, pTest, pTest + 1, pElse, frame', res.trace, res.value);
      n := n + 2;
      frame' := Entered(code, if res.value != 0 then pTest + 1 else pElse, frame', res.trace).frame;
      if res.value != 0 {
        n, frame' := BranchSim(code, oracle, fname, s.thenBranch, p.thenState, p.thenPart, vars, start, n, pTest + 2,
          pMerge, frame', res.trace, store, fuel);
      } else if p.elsePart.Some? {
        n, frame' := BranchSim(code, oracle, fname, s.elseBranch.value, p.elseState, p.elsePart.value, vars, start, n,
          pElse + 1, pMerge, frame', res.trace, store, fuel);
      }
    }
  }

  // A branch of an `if`, from just after its label to just after the merge label.
  lemma {:induction false} BranchSim(
    code: seq<Instr>, oracle: Oracle, fname: string, s: S.Stmt, st: State, b: StmtCode, vars: set<string>,
    start: Config, n0: nat, off: nat, target: nat, frame: Frame, trace: seq<Event>, store: S.Store, fuel: nat)
    returns (n: nat, frame': Frame)
    requires LoweredStmt(fname, s, st) == Some(b) && Placed(code, off, st, b, vars, frame, store)
    requires target < |code| && code[target].Label?
    requires CodeAt(code, off + |b.code|, BranchTo(b.state.terminated, code[target].name))
    requires Steps(code, oracle, start, n0) == Running(off, frame, trace)
    ensures n >= n0
    ensures var end := Steps(code, oracle, start, n);
      match S.Exec(s, store, trace, oracle, fuel)
      case Next(store', trace') => end == Running(target + 1, frame', trace') && Agree(vars, frame'.slots, store')
        && n > n0
      case Done(v, trace') => end == Returned(Some(v), trace')
      case Fault(trace') => end == Trapped(trace')
      case OutOfFuel => end.Running? && n >= n0 + fuel
      case Wrong => false
    decreases fuel, s, 3
  {
    hide Steps, Step, Consistent, LabelsResolve, FindLabel, CodeAt, S.Exec, LoweredStmt, Agree;
    var n1;
    n1, frame' := StmtSim(code, oracle, fname, s, st, vars, off, frame, trace, store, fuel);
    var mid := Running(off, frame, trace);
    Then(code, oracle, start, n0, mid, n1, Steps(code, oracle, mid, n1));
    n := n0 + n1;
    var res := S.Exec(s, store, trace, oracle, fuel);
    if res.Next? {
      CodeAtFirst(code, off + |b.code|, BranchTo(b.state.terminated, code[target].name));
      n, frame' := JoinAt(code, oracle, start, n, off + |b.code|, target, frame', res.trace, false);
    }
  }

  // Where the pieces of a lowered loop lie.
  ghost predicate LoopPlaced(code: seq<Instr>, off: nat, p: WhileParts, pTest: nat, pExit: nat) {
    && pTest == off + 2 + |p.cond.code| && CodeAt(code, off + 2, p.cond.code)
    && pTest + 1 < |code| && pExit < |code|
    && code[off] == Br(p.headBB) && code[off + 1] == Label(p.headBB)
    && code[pTest] == BrCond(p.cond.operand, p.bodyBB, p.exitBB) && code[pTest + 1] == Label(p.bodyBB)
    && CodeAt(code, pTest + 2, p.body.code)
    && CodeAt(code, pTest + 2 + |p.body.code|, BranchTo(p.body.state.terminated, p.headBB))
    && code[pExit] == Label(p.exitBB)
  }

  lemma WhilePlaced(code: seq<Instr>, off: nat, p: WhileParts) returns (pTest: nat, pExit: nat)
    requires CodeAt(code, off, WhileCode(p.cond, p.body, p.headBB, p.bodyBB, p.exitBB))
    ensures LoopPlaced(code, off, p, pTest, pExit)
    ensures pExit + 1 == off + |WhileCode(p.cond, p.body, p.headBB, p.bodyBB, p.exitBB)|
  {
    hide CodeAt, BranchTo;
    var head := [Br(p.headBB), Label(p.headBB)];
    var back := BranchTo(p.body.state.terminated, p.headBB);
    var rest := p.cond.code
      + ([BrCond(p.cond.operand, p.bodyBB, p.exitBB), Label(p.bodyBB)] + (p.body.code + (back + [Label(p.exitBB)])));
    CodeAtSplit(code, off, head, rest);
    CodeAtPair(code, off, head);
    pTest := TestPlaced(code, off + 2, p.cond, p.bodyBB, p.exitBB, p.body, back + [Label(p.exitBB)]);
    pExit := pTest + 2 + |p.body.code| + |back|;
    CodeAtSplit(code, pTest + 2 + |p.body.code|, back, [Label(p.exitBB)]);
    CodeAtFirst(code, pExit, [Label(p.exitBB)]);
  }

  lemma {:induction false} WhileSim(
    code: seq<Instr>, oracle: Oracle, fname: string, s: S.Stmt, st: State, vars: set<string>,
    off: nat, frame: Frame, trace: seq<Event>, store: S.Store, fuel: nat)
    returns (n: nat, frame': Frame)
    requires s.While? && LoweredStmt(fname, s, st).Some?
    requires Placed(code, off, st, LoweredStmt(fname, s, st).value, vars, frame, store)
    ensures StmtRun(code, oracle, off, frame, trace, LoweredStmt(fname, s, st).value, vars,
                    S.Exec(s, store, trace, oracle, fuel), fuel, n, frame')
    decreases fuel, s, 1
  {
    hide Steps, Step, Consistent, LabelsResolve, FindLabel, S.Exec, S.Eval, LoweredExpr, LoweredStmt, Operand,
      WhileCode, CodeAt;
    ConsistentNames(st.allocas, st.slots);
    var start := Running(off, frame, trace);
    var p := WhileLayout(fname, s, st);
    var pTest, pExit := WhilePlaced(code, off, p);
    StmtShape(fname, s.body, p.bodyState);
    Zero(code, oracle, start);
    TakeBranch(code, oracle, start, 0, off, off + 1, frame, trace);
    frame' := Entered(code, off + 1, frame, trace).frame;
    var mid := Running(off + 2, frame', trace);
    var n2;
    n2, frame' := LoopSim(code, oracle, fname, s, st.slots, st.nextTmp, p, vars, off, pTest, pExit, frame', trace,
      store, fuel);
    Then(code, oracle, start, 2, mid, n2, Steps(code, oracle, mid, n2));
    n := 2 + n2;
  }

  // The rounds of a loop, from just after its head label to just after its exit label.
  lemma {:induction false} LoopSim(
    code: seq<Instr>, oracle: Oracle, fname: string, s: S.Stmt, slots: map<string, string>, t: nat,
    p: WhileParts, vars: set<string>, off: nat, pTest: nat, pExit: nat,
    frame: Frame, trace: seq<Event>, store: S.Store, fuel: nat)
    returns (n: nat, frame': Frame)
    requires s.While? && LoweredExpr(s.cond, slots, t) == Some(p.cond) && SlotsFor(slots, vars)
    requires LoweredStmt(fname, s.body, p.bodyState) == Some(p.body)
    requires LoopPlaced(code, off, p, pTest, pExit) && Placed(code, pTest + 2, p.bodyState, p.body, vars, frame, store)
    ensures var end := Steps(code, oracle, Running(off + 2, frame, trace), n);
      match S.Exec(s, store, trace, oracle, fuel)
      case Next(store', trace') => end == Running(pExit + 1, frame', trace') && Agree(vars, frame'.slots, store')
      case Done(v, trace') => end == Returned(Some(v), trace')
      case Fault(trace') => end == Trapped(trace')
      case OutOfFuel => end.Running? && n >= fuel
      case Wrong => false
    decreases fuel, s, 0
  {
    hide Steps, Step, Consistent, LabelsResolve, FindLabel, S.Exec, S.Eval, LoweredExpr, LoweredStmt, Operand, CodeAt;
    var start := Running(off + 2, frame, trace);
    n, frame' := 0, frame;
    Zero(code, oracle, start);
    ExecWhile(s, store, trace, oracle, fuel);
    if fuel > 0 {
      var env';
      n, env' := ExprSim(code, oracle, s.cond, slots, vars, t, off + 2, frame, trace, store);
      var res := S.Eval(s.cond, store, trace, oracle);
      if res.Val? {
        frame' := frame.(env := env');
        TakeCondition(code, oracle, start, n, pTest, pTest + 1, pExit, frame', res.trace, res.value);
        n := n + 2;
        frame' := Entered(code, if res.value != 0 then pTest + 1 else pExit, frame', res.trace).frame;
        if res.value != 0 {
          n, frame' := BranchSim(code, oracle, fname, s.body, p.bodyState, p.body, vars, start, n, pTest + 2, off + 1,
                                 frame', res.trace, store, fuel - 1);
          var round := S.Exec(s.body, store, res.trace, oracle, fuel - 1);
          if round.Next? {
            var mid := Running(off + 2, frame', round.trace);
            var n2, frame2 := LoopSim(code, oracle, fname, s, slots, t, p, vars, off, pTest, pExit,
                                      frame', round.trace, round.store, fuel - 1);
            Then(code, oracle, start, n, mid, n2, Steps(code, oracle, mid, n2));
            n, frame' := n + n2, frame2;
          }
        }
      }
    }
  }
}
