/** The intermediate representation and its operational semantics: a flat instruction
    list run by a program counter over temporaries, stack slots and a call trace. */
module Ir {
  import opened Names

  datatype CmpPred = Lt | Le | Gt | Ge | Eq | Ne

  datatype ArithOp = Add | Sub | Mul | Div

  datatype Type = I64 | F64 | Void

  datatype Instr =
    | ConstI64(dest: string, value: int)
    | Arith(op: ArithOp, dest: string, a: string, b: string)
    | ICmp(dest: string, pred: CmpPred, a: string, b: string)
    | Call(dest: string, callee: string, args: seq<string>)
    | Alloca(slot: string)
    | Load(dest: string, slot: string)
    | Store(slot: string, val: string)
    | Label(name: string)
    | Br(target: string)
    | BrCond(cond: string, ifTrue: string, ifFalse: string)
    | Phi(dest: string, ty: Type, pairs: seq<(string, string)>)
    | Ret(result: Option<string>)
    | Deopt

  datatype Function = Function(name: string, params: seq<(string, Type)>, ret: Option<Type>, body: seq<Instr>)

  // ----- 64-bit arithmetic -----

  const TWO63: int := 0x8000_0000_0000_0000
  const TWO64: int := 0x1_0000_0000_0000_0000

  predicate IsI64(n: int) {
    -TWO63 <= n < TWO63
  }

  // Two's complement reduction to 64 bits.
  function Wrap(n: int): int {
    (n + TWO63) % TWO64 - TWO63
  }

  // Quotient truncated toward zero.
  function TruncDiv(a: int, b: int): int
    requires b != 0
  {
    var q := (if a < 0 then -a else a) / (if b < 0 then -b else b);
    if (a < 0) == (b < 0) then q else -q
  }

  /** The one 64-bit number that differs from n by a multiple of 2^64. */
  lemma WrapIs(n: int)
    ensures IsI64(Wrap(n)) && (n - Wrap(n)) % 18446744073709551616 == 0
    ensures -9223372036854775808 <= n <= 9223372036854775807 ==> Wrap(n) == n
  {
  }

  /** Division truncates: what is left over is smaller than the divisor and has the sign of the
      dividend, or is 0. */
  lemma TruncDivIs(a: int, b: int)
    requires b != 0
    ensures var r := a - b * TruncDiv(a, b);
      (if r < 0 then -r else r) < (if b < 0 then -b else b) && (r != 0 ==> (r < 0 <==> a < 0))
  {
    var m, d := if a < 0 then -a else a, if b < 0 then -b else b;
    assert m == d * (m / d) + m % d;
    var q := m / d;
    assert b * TruncDiv(a, b) == if a < 0 then -(d * q) else d * q by {
      SignedProduct(b, q);
    }
  }

  lemma SignedProduct(b: int, q: int)
    ensures b * -q == -b * q == -(b * q)
  {
  }

  // None is the division trap.
  function Compute(op: ArithOp, a: int, b: int): Option<int> {
    match op
    case Add => Some(Wrap(a + b))
    case Sub => Some(Wrap(a - b))
    case Mul => Some(Wrap(a * b))
    case Div => if b == 0 then None else Some(Wrap(TruncDiv(a, b)))
  }

  function Compare(pred: CmpPred, a: int, b: int): int {
    var holds := match pred
      case Lt => a < b
      case Le => a <= b
      case Gt => a > b
      case Ge => a >= b
      case Eq => a == b
      case Ne => a != b;
    if holds then 1 else 0
  }

  // ----- Calls -----

  datatype Event = Event(callee: string, args: seq<int>)

  /** A call's result may depend on every call made before it. None: the callee traps. */
  type Oracle = (seq<Event>, string, seq<int>) -> Option<int>

  // ----- Machine -----

  datatype Frame = Frame(env: map<string, int>, slots: map<string, int>, prev: string, block: string)

  datatype Config =
    | Running(pc: nat, frame: Frame, trace: seq<Event>)
    | Returned(value: Option<int>, trace: seq<Event>)
    | Trapped(trace: seq<Event>)
    | Stuck

  function Operand(env: map<string, int>, s: string): Option<int> {
    if IsInteger(s) then Some(ParseInt(s)) else if s in env then Some(env[s]) else None
  }

  function Operands(env: map<string, int>, ss: seq<string>): Option<seq<int>> {
    if ss == [] then Some([])
    else
      match (Operands(env, ss[..|ss| - 1]), Operand(env, ss[|ss| - 1]))
      case (Some(vs), Some(v)) => Some(vs + [v])
      case _ => None
  }

  // Position of the first label called `name`, or |code| when there is none.
  function FindLabel(code: seq<Instr>, name: string): (i: nat)
    ensures i <= |code|
    ensures i < |code| ==> code[i] == Label(name)
    ensures forall j | 0 <= j < i :: code[j] != Label(name)
  {
    if code == [] then 0
    else if code[0] == Label(name) then 0
    else 1 + FindLabel(code[1..], name)
  }

  function Jump(code: seq<Instr>, target: string, frame: Frame, trace: seq<Event>): Config {
    var i := FindLabel(code, target);
    if i < |code| then Running(i, frame, trace) else Stuck
  }

  function Incoming(pairs: seq<(string, string)>, prev: string): Option<string> {
    if pairs == [] then None
    else if pairs[0].1 == prev then Some(pairs[0].0)
    else Incoming(pairs[1..], prev)
  }

  // Continue after an instruction that defines `dest`.
  function Define(c: Config, dest: string, value: int, trace: seq<Event>): Config
    requires c.Running?
  {
    Running(c.pc + 1, c.frame.(env := c.frame.env[dest := value]), trace)
  }

  function Step(code: seq<Instr>, oracle: Oracle, c: Config): Config {
    if !c.Running? then c
    else if c.pc >= |code| then Stuck
    else
      var f := c.frame;
      match code[c.pc]
      case ConstI64(dest, value) => Define(c, dest, value, c.trace)
      case Arith(op, dest, a, b) =>
        (match (Operand(f.env, a), Operand(f.env, b))
         case (Some(x), Some(y)) =>
           (match Compute(op, x, y)
            case Some(v) => Define(c, dest, v, c.trace)
            case None => Trapped(c.trace))
         case _ => Stuck)
      case ICmp(dest, pred, a, b) =>
        (match (Operand(f.env, a), Operand(f.env, b))
         case (Some(x), Some(y)) => Define(c, dest, Compare(pred, x, y), c.trace)
         case _ => Stuck)
      case Call(dest, callee, args) =>
        (match Operands(f.env, args)
         case Some(vs) =>
           var trace' := c.trace + [Event(callee, vs)];
           (match oracle(c.trace, callee, vs)
            case Some(v) => Define(c, dest, v, trace')
            case None => Trapped(trace'))
         case None => Stuck)
      case Alloca(slot) => Running(c.pc + 1, f.(slots := f.slots[slot := 0]), c.trace)
      case Load(dest, slot) =>
        if slot in f.slots then Define(c, dest, f.slots[slot], c.trace) else Stuck
      case Store(slot, val) =>
        (match Operand(f.env, val)
         case Some(v) =>
           if slot in f.slots then Running(c.pc + 1, f.(slots := f.slots[slot := v]), c.trace) else Stuck
         case None => Stuck)
      case Label(name) => Running(c.pc + 1, f.(prev := f.block, block := name), c.trace)
      case Br(target) => Jump(code, target, f, c.trace)
      case BrCond(cond, ifTrue, ifFalse) =>
        (match Operand(f.env, cond)
         case Some(v) => Jump(code, if v != 0 then ifTrue else ifFalse, f, c.trace)
         case None => Stuck)
      case Phi(dest, _, pairs) =>
        (match Incoming(pairs, f.prev)
         case Some(s) =>
           (match Operand(f.env, s)
            case Some(v) => Define(c, dest, v, c.trace)
            case None => Stuck)
         case None => Stuck)
      case Ret(Some(s)) =>
        (match Operand(f.env, s)
         case Some(v) => Returned(Some(v), c.trace)
         case None => Stuck)
      case Ret(None) => Returned(None, c.trace)
      case Deopt => Trapped(c.trace)
  }

  function Steps(code: seq<Instr>, oracle: Oracle, c: Config, n: nat): Config
    decreases n
  {
    if n == 0 then c else Steps(code, oracle, Step(code, oracle, c), n - 1)
  }

  lemma {:induction false} StepsCompose(code: seq<Instr>, oracle: Oracle, c: Config, m: nat, n: nat)
    ensures Steps(code, oracle, c, m + n) == Steps(code, oracle, Steps(code, oracle, c, m), n)
    decreases m
  {
    if m > 0 {
      StepsCompose(code, oracle, Step(code, oracle, c), m - 1, n);
    }
  }

  // A halted machine stays as it is.
  lemma {:induction false} HaltedStays(code: seq<Instr>, oracle: Oracle, c: Config, n: nat)
    requires !c.Running?
    ensures Steps(code, oracle, c, n) == c
    decreases n
  {
    if n > 0 {
      HaltedStays(code, oracle, c, n - 1);
    }
  }

  /** A run has at most one way to halt. */
  lemma HaltsOnce(code: seq<Instr>, oracle: Oracle, c: Config, m: nat, n: nat)
    requires !Steps(code, oracle, c, m).Running? && !Steps(code, oracle, c, n).Running?
    ensures Steps(code, oracle, c, m) == Steps(code, oracle, c, n)
  {
    var k := if m < n then m else n;
    StepsCompose(code, oracle, c, k, m - k);
    StepsCompose(code, oracle, c, k, n - k);
    HaltedStays(code, oracle, Steps(code, oracle, c, k), m - k);
    HaltedStays(code, oracle, Steps(code, oracle, c, k), n - k);
  }

  // The configuration a call of `f` starts in; a repeated parameter keeps its last argument.
  function BindParams(params: seq<(string, Type)>, args: seq<int>): map<string, int>
    requires |params| == |args|
  {
    if params == [] then map[]
    else BindParams(params[..|params| - 1], args[..|args| - 1])[params[|params| - 1].0 := args[|args| - 1]]
  }

  function Entry(f: Function, args: seq<int>): Config
    requires |args| == |f.params|
  {
    Running(0, Frame(BindParams(f.params, args), map[], "", "entry"), [])
  }
}
