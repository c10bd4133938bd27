/** The procedural subset of the source language and its big-step semantics over one
    flat, function-wide store whose cells start at 0. */
module Source {
  import opened Names
  import Ir

  datatype Pattern =
    | VariablePattern(name: string)
    | BindingPattern(name: string)
    | IntPattern(n: int)
    | BoolPattern(b: bool)
    | Wildcard
    | OtherPattern

  datatype Expr =
    | IntLit(n: int)
    | BoolLit(b: bool)
    | Variable(name: string)
    | Grouping(inner: Expr)
    | Unary(op: string, right: Expr)
    | Binary(left: Expr, op: string, right: Expr)
    | Call(callee: Expr, args: seq<Expr>)
    | OtherExpr

  datatype Stmt =
    | Block(stmts: seq<Stmt>)
    | Let(pattern: Pattern, init: Expr)
    | Expression(expr: Expr)
    | Return(value: Option<Expr>)
    | If(cond: Expr, thenBranch: Stmt, elseBranch: Option<Stmt>)
    | While(cond: Expr, body: Stmt)
    | Match(subject: Expr, arms: seq<Arm>)
    | OtherStmt

  datatype Arm = Arm(pattern: Pattern, guard: Option<Expr>, body: Stmt)

  datatype FunctionDecl = FunctionDecl(name: string, params: seq<string>, body: Stmt)

  type Store = map<string, int>

  type Trace = seq<Ir.Event>

  function Read(store: Store, x: string): int {
    if x in store then store[x] else 0
  }

  // ----- Expressions -----

  datatype Value = Val(value: int, trace: Trace) | Trap(trace: Trace) | NoValue

  datatype Values = Vals(values: seq<int>, trace: Trace) | TrapInList(trace: Trace) | NoValues

  function Truth(b: bool): int {
    if b then 1 else 0
  }

  // The binary operators of the subset on 64-bit integers.
  function Apply(op: string, a: int, b: int, trace: Trace): Value {
    if op == "+" then Val(Ir.Wrap(a + b), trace)
    else if op == "-" then Val(Ir.Wrap(a - b), trace)
    else if op == "*" then Val(Ir.Wrap(a * b), trace)
    else if op == "/" then (if b == 0 then Trap(trace) else Val(Ir.Wrap(Ir.TruncDiv(a, b)), trace))
    else if op == "<" then Val(Truth(a < b), trace)
    else if op == "<=" then Val(Truth(a <= b), trace)
    else if op == ">" then Val(Truth(a > b), trace)
    else if op == ">=" then Val(Truth(a >= b), trace)
    else if op == "==" then Val(Truth(a == b), trace)
    else if op == "!=" then Val(Truth(a != b), trace)
    else NoValue
  }

  function Eval(e: Expr, store: Store, trace: Trace, oracle: Ir.Oracle): Value
    decreases e, 1
  {
    match e
    case IntLit(n) => Val(n, trace)
    case BoolLit(b) => Val(Truth(b), trace)
    case Variable(x) => Val(Read(store, x), trace)
    case Grouping(inner) => Eval(inner, store, trace, oracle)
    case Unary(op, right) =>
      var r := Eval(right, store, trace, oracle);
      if op != "-" then NoValue
      else if r.Val? then Val(Ir.Wrap(-r.value), r.trace) else r
    case Binary(left, op, right) =>
      var l := Eval(left, store, trace, oracle);
      if !l.Val? then l
      else
        var r := Eval(right, store, l.trace, oracle);
        if r.Val? then Apply(op, l.value, r.value, r.trace) else r
    case Call(callee, args) =>
      if !callee.Variable? then NoValue
      else
        (match EvalArgs(args, store, trace, oracle)
         case Vals(vs, tr) =>
           var tr' := tr + [Ir.Event(callee.name, vs)];
           (match oracle(tr, callee.name, vs)
            case Some(v) => Val(v, tr')
            case None => Trap(tr'))
         case TrapInList(tr) => Trap(tr)
         case NoValues => NoValue)
    case OtherExpr => NoValue
  }

  // Arguments are evaluated from the first to the last.
  function EvalArgs(args: seq<Expr>, store: Store, trace: Trace, oracle: Ir.Oracle): Values
    decreases args, 0
  {
    if args == [] then Vals([], trace)
    else
      match EvalArgs(args[..|args| - 1], store, trace, oracle)
      case Vals(vs, tr) =>
        (match Eval(args[|args| - 1], store, tr, oracle)
         case Val(v, tr') => Vals(vs + [v], tr')
         case Trap(tr') => TrapInList(tr')
         case NoValue => NoValues)
      case other => other
  }

  // ----- Statements -----

  /** Next: ran to its end. Done: returned. Fault: trapped. OutOfFuel: some loop still
      wanted to go round. Wrong: left the subset. */
  datatype Outcome =
    | Next(store: Store, trace: Trace)
    | Done(value: int, trace: Trace)
    | Fault(trace: Trace)
    | OutOfFuel
    | Wrong

  // Bindings of a pattern that matches v, or None.
  function Matches(p: Pattern, v: int, store: Store): Option<Store> {
    match p
    case VariablePattern(x) => Some(store[x := v])
    case BindingPattern(x) => Some(store[x := v])
    case IntPattern(n) => if v == n then Some(store) else None
    case BoolPattern(b) => if v == Truth(b) then Some(store) else None
    case Wildcard => Some(store)
    case OtherPattern => None
  }

  function Exec(s: Stmt, store: Store, trace: Trace, oracle: Ir.Oracle, fuel: nat): Outcome
    decreases fuel, s, 1
  {
    match s
    case Block(stmts) => ExecSeq(stmts, store, trace, oracle, fuel)
    case Let(pattern, init) =>
      if !pattern.VariablePattern? && !pattern.BindingPattern? then Wrong
      else
        (match Eval(init, store, trace, oracle)
         case Val(v, tr) => Next(store[pattern.name := v], tr)
         case Trap(tr) => Fault(tr)
         case NoValue => Wrong)
    case Expression(e) =>
      (match Eval(e, store, trace, oracle)
       case Val(_, tr) => Next(store, tr)
       case Trap(tr) => Fault(tr)
       case NoValue => Wrong)
    case Return(None) => Done(0, trace)
    case Return(Some(e)) =>
      (match Eval(e, store, trace, oracle)
       case Val(v, tr) => Done(v, tr)
       case Trap(tr) => Fault(tr)
       case NoValue => Wrong)
    case If(cond, thenBranch, elseBranch) =>
      (match Eval(cond, store, trace, oracle)
       case Val(v, tr) =>
         if v != 0 then Exec(thenBranch, store, tr, oracle, fuel)
         else if elseBranch.Some? then Exec(elseBranch.value, store, tr, oracle, fuel)
         else Next(store, tr)
       case Trap(tr) => Fault(tr)
       case NoValue => Wrong)
    case While(cond, body) =>
      if fuel == 0 then OutOfFuel
      else
        (match Eval(cond, store, trace, oracle)
         case Val(v, tr) =>
           if v == 0 then Next(store, tr)
           else
             (match Exec(body, store, tr, oracle, fuel - 1)
              case Next(store', tr') => Exec(s, store', tr', oracle, fuel - 1)
              case other => other)
         case Trap(tr) => Fault(tr)
         case NoValue => Wrong)
    case Match(subject, arms) =>
      (match Eval(subject, store, trace, oracle)
       case Val(v, tr) => ExecArms(arms, v, store, tr, oracle, fuel)
       case Trap(tr) => Fault(tr)
       case NoValue => Wrong)
    case OtherStmt => Wrong
  }

  function ExecSeq(stmts: seq<Stmt>, store: Store, trace: Trace, oracle: Ir.Oracle, fuel: nat): Outcome
    decreases fuel, stmts, 0
  {
    if stmts == [] then Next(store, trace)
    else
      match Exec(stmts[0], store, trace, oracle, fuel)
      case Next(store', tr') => ExecSeq(stmts[1..], store', tr', oracle, fuel)
      case other => other
  }

  // The first arm whose pattern matches and whose guard, if any, holds.
  function ExecArms(arms: seq<Arm>, v: int, store: Store, trace: Trace, oracle: Ir.Oracle, fuel: nat): Outcome
    decreases fuel, arms, 0
  {
    if arms == [] then Next(store, trace)
    else
      match TryArm(arms[0], v, store, trace, oracle, fuel)
      case Some((true, outcome, _)) => outcome
      case Some((false, _, tr)) => ExecArms(arms[1..], v, store, tr, oracle, fuel)
      case None => Wrong
  }

  // Whether the arm is taken, its outcome if so, and the trace after its guard. None: the guard is outside the subset.
  function TryArm(arm: Arm, v: int, store: Store, trace: Trace, oracle: Ir.Oracle, fuel: nat): Option<(bool, Outcome,
      Trace)>
    decreases fuel, arm, 0
  {
    match Matches(arm.pattern, v, store)
    case None => Some((false, Wrong, trace))
    case Some(bound) =>
      (match arm.guard
       case None => Some((true, Exec(arm.body, bound, trace, oracle, fuel), trace))
       case Some(g) =>
         (match Eval(g, bound, trace, oracle)
          case Val(c, tr) =>
            if c != 0 then Some((true, Exec(arm.body, bound, tr, oracle, fuel), tr)) else Some((false, Wrong, tr))
          case Trap(tr) => Some((true, Fault(tr), tr))
          case NoValue => None))
  }

  function BindArgs(params: seq<string>, args: seq<int>): Store
    requires |params| == |args|
  {
    if params == [] then map[]
    else BindArgs(params[..|params| - 1], args[..|args| - 1])[params[|params| - 1] := args[|args| - 1]]
  }

  // A function that falls off its end gives 0.
  function RunFunction(f: FunctionDecl, args: seq<int>, oracle: Ir.Oracle, fuel: nat): Outcome
    requires |args| == |f.params|
  {
    match Exec(f.body, BindArgs(f.params, args), [], oracle, fuel)
    case Next(_, tr) => Done(0, tr)
    case other => other
  }
}
