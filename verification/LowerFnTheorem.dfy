/** The two theorems about `lower_function`: what it emits is well formed, and it means
    what the source function means. */
module LowerFnTheorem {
  import opened Names
  import opened Ir
  import opened LowerFn
  import opened LowerFnWellFormed
  import opened LowerFnCorrect
  import S = Source

  lemma {:induction false} ParamSlots(params: seq<string>)
    ensures var st := ParamState(params);
      Consistent(st.allocas, st.slots) && st.slots.Keys == (set p | p in params)
      && st.nextTmp == 0 && st.nextLbl == 0 && !st.terminated
  {
    if params != [] {
      ParamSlots(params[..|params| - 1]);
      SlotAdded(ParamState(params[..|params| - 1]), params[|params| - 1]);
    }
  }

  lemma PartsRegrouped<T>(a: seq<T>, b: seq<T>, c: seq<T>, d: seq<T>)
    ensures a + (b + c) + d == a + (b + (c + d))
  {
  }

  // The pieces of a lowered function.
  lemma FunctionLayout(f: S.FunctionDecl) returns (b: StmtCode)
    requires LoweredFunction(f).Some?
    ensures LoweredStmt(StripAt(f.name), f.body, ParamState(f.params)) == Some(b)
    ensures LoweredFunction(f).value.body == Finished(ParamStores(f.params) + b.code, b.state)
    ensures LoweredFunction(f).value.body
            == b.state.allocas
              + (ParamStores(f.params) + (b.code + if b.state.terminated then [] else [Ret(Some("0"))]))
    ensures LoweredFunction(f).value.params == TypedParams(f.params)
    ensures Consistent(b.state.allocas, b.state.slots) && (set p | p in f.params) <= b.state.slots.Keys
  {
    hide LoweredStmt, ParamStores, Consistent, StripAt;
    b := LoweredStmt(StripAt(f.name), f.body, ParamState(f.params)).value;
    PartsRegrouped(b.state.allocas, ParamStores(f.params), b.code, if b.state.terminated then [] else [Ret(Some("0"))]);
    ParamSlots(f.params);
    StmtShape(StripAt(f.name), f.body, ParamState(f.params));
  }

  // ----- Well-formedness -----

  function SlotsOf(allocas: seq<Instr>): set<string>
    requires forall i | 0 <= i < |allocas| :: allocas[i].Alloca?
  {
    if allocas == [] then {} else SlotsOf(allocas[..|allocas| - 1]) + {allocas[|allocas| - 1].slot}
  }

  lemma {:induction false} AllocasScan(params: set<string>, allocas: seq<Instr>)
    requires forall i | 0 <= i < |allocas| :: allocas[i].Alloca?
    requires forall i, j | 0 <= i < j < |allocas| :: allocas[i] != allocas[j]
    ensures ScanCode(params, allocas, Fresh) == Some(Scan(true, true, {}, {}, SlotsOf(allocas)))
    ensures forall c :: c in SlotsOf(allocas) <==> Alloca(c) in allocas
  {
    if allocas != [] {
      var front, last := allocas[..|allocas| - 1], allocas[|allocas| - 1];
      AllocasScan(params, front);
      assert allocas == front + [last];
    }
  }

  lemma {:induction false} StoresScan(names: set<string>, params: seq<string>, s: Scan) returns (s': Scan)
    requires s.open && forall p | p in params :: p in names && SlotName(p) in s.declared
    ensures ScanCode(names, ParamStores(params), s) == Some(s')
    ensures s'.open && s'.declared == s.declared && s'.ever == s.ever
  {
    hide ScanCode, SlotName;
    s' := s;
    ScanNothing(names, s);
    if params != [] {
      var p := params[|params| - 1];
      var m := StoresScan(names, params[..|params| - 1], s);
      ScanJoin(names, ParamStores(params[..|params| - 1]), [Store(SlotName(p), p)], s);
      ScanOne(names, Store(SlotName(p), p), m);
      s' := m.(entry := false);
    }
  }

  lemma {:induction false} StoresStraight(params: seq<string>)
    ensures Straight(ParamStores(params)) && |ParamStores(params)| == |params|
    ensures forall i | 0 <= i < |params| :: ParamStores(params)[i] == Store(SlotName(params[i]), params[i])
  {
    if params != [] {
      StoresStraight(params[..|params| - 1]);
    }
  }

  // A fall-off return closes the last block.
  lemma ClosingScan(params: set<string>, terminated: bool, s: Scan) returns (s': Scan)
    requires s.open == !terminated
    ensures ScanCode(params, if terminated then [] else [Ret(Some("0"))], s) == Some(s') && !s'.open
  {
    s' := if terminated then s else s.(open := false, entry := false);
    if !terminated {
      ScanOne(params, Ret(Some("0")), s);
    }
  }

  lemma BodyScanned(f: S.FunctionDecl) returns (s: Scan)
    requires LoweredFunction(f).Some?
    ensures ScanCode((set p | p in f.params), LoweredFunction(f).value.body, Fresh) == Some(s) && !s.open
  {
    hide ScanCode, ScanInstr, EverBelow, LoweredStmt;
    var b := FunctionLayout(f);
    var names, allocas, stores := (set p | p in f.params), b.state.allocas, ParamStores(f.params);
    AllocasScan(names, allocas);
    var s0 := Scan(true, true, {}, {}, SlotsOf(allocas));
    forall x | x in b.state.slots
      ensures SlotName(x) in s0.declared
    {
      assert Alloca(SlotName(x)) in allocas;
    }
    var s1 := StoresScan(names, f.params, s0);
    ParamSlots(f.params);
    NoTmpYet(s1);
    var s2 := StmtScan(names, StripAt(f.name), f.body, ParamState(f.params), s1);
    s := ClosingScan(names, b.state.terminated, s2);
    var last := if b.state.terminated then [] else [Ret(Some("0"))];
    ScanAppend(names, stores, b.code, s0, s1, s2);
    ScanAppend(names, allocas, stores + b.code, Fresh, s0, s2);
    ScanAppend(names, allocas + (stores + b.code), last, Fresh, s2, s);
  }

  lemma NoTmpYet(s: Scan)
    requires s.ever == {}
    ensures EverBelow(s, 0)
  {
  }

  lemma FunctionLabels(f: S.FunctionDecl)
    requires LoweredFunction(f).Some?
    ensures var code := LoweredFunction(f).value.body; LabelsUnique(code) && TargetsExist(code, code)
  {
    hide LoweredFunction, LoweredStmt, LabelName, OwnsLabels, TargetsExist, LabelsUnique, ParamStores, Finished;
    var b := FunctionLayout(f);
    var fname := StripAt(f.name);
    var code := LoweredFunction(f).value.body;
    var last := if b.state.terminated then [] else [Ret(Some("0"))];
    ParamSlots(f.params);
    StmtLabels(fname, f.body, ParamState(f.params));
    var ks := Range(0, b.state.nextLbl);
    StoresStraight(f.params);
    PlainOwns(fname, b.state.allocas, code);
    PlainOwns(fname, ParamStores(f.params), code);
    PlainOwns(fname, last, code);
    var stores := ParamStores(f.params);
    OwnJoin(fname, b.code, ks, last, {});
    OwnJoin(fname, stores, {}, b.code + last, ks + {});
    OwnJoin(fname, b.state.allocas, {}, stores + (b.code + last), {} + (ks + {}));
    OwnedUnique(fname, code, {} + ({} + (ks + {})));
    TargetsWiden(b.code, code);
    TargetsJoin(b.code, last, code);
    TargetsJoin(stores, b.code + last, code);
    TargetsJoin(b.state.allocas, stores + (b.code + last), code);
  }

  lemma OwnedUnique(fname: string, code: seq<Instr>, ks: set<nat>)
    requires OwnsLabels(fname, code, ks)
    ensures LabelsUnique(code)
  {
  }

  lemma PlainOwns(fname: string, code: seq<Instr>, whole: seq<Instr>)
    requires Straight(code)
    ensures OwnsLabels(fname, code, {}) && TargetsExist(code, whole)
  {
  }

  /** Whatever `lower_function` accepts, the function it emits is well formed. */
  lemma LoweredFunctionIsWellFormed(f: S.FunctionDecl)
    requires LoweredFunction(f).Some?
    ensures WellFormed(LoweredFunction(f).value)
  {
    var ir := LoweredFunction(f).value;
    var s := BodyScanned(f);
    ScanSound((set p | p in f.params), ir.body);
    FunctionLabels(f);
    assert (set p | p in ir.params :: p.0) == (set p | p in f.params) by {
      forall p | p in f.params
        ensures p in (set q | q in ir.params :: q.0)
      {
        var i :| 0 <= i < |f.params| && f.params[i] == p;
        assert ir.params[i] in ir.params && ir.params[i].0 == p;
      }
    }
  }

  // ----- Meaning -----

  lemma UniqueLabelsResolve(code: seq<Instr>)
    requires LabelsUnique(code)
    ensures LabelsResolve(code)
  {
  }

  lemma {:induction false} RunAllocas(code: seq<Instr>, oracle: Oracle, frame: Frame, k: nat)
      returns (cells: map<string, int>)
    requires k <= |code| && frame.slots == map[] && forall i | 0 <= i < k :: code[i].Alloca?
    ensures Steps(code, oracle, Running(0, frame, []), k) == Running(k, frame.(slots := cells), [])
    ensures forall i | 0 <= i < k :: code[i].slot in cells
    ensures forall c | c in cells :: cells[c] == 0
  {
    cells := map[];
    if k > 0 {
      cells := RunAllocas(code, oracle, frame, k - 1);
      var mid := Running(k - 1, frame.(slots := cells), []);
      One(code, oracle, mid);
      Then(code, oracle, Running(0, frame, []), k - 1, mid, 1, Step(code, oracle, mid));
      cells := cells[code[k - 1].slot := 0];
    }
  }

  // After the first k parameter stores.
  ghost predicate Stored(vars: set<string>, slots: map<string, int>, env: map<string, int>, params: seq<string>) {
    forall x | x in vars ::
      SlotName(x) in slots && slots[SlotName(x)] == if x in params && x in env then env[x] else 0
  }

  lemma StoredOne(vars: set<string>, slots: map<string, int>, env: map<string, int>, params: seq<string>, p: string)
    requires Stored(vars, slots, env, params) && p in env
    ensures Stored(vars, slots[SlotName(p) := env[p]], env, params + [p])
  {
    forall x | x in vars
      ensures slots[SlotName(p) := env[p]][SlotName(x)] == if x in params + [p] && x in env then env[x] else 0
    {
      if SlotName(x) == SlotName(p) {
        SlotNameInjective(x, p);
      }
    }
  }

  lemma RunStore(code: seq<Instr>, oracle: Oracle, start: Config, n: nat, pc: nat, frame: Frame, p: string)
    requires pc < |code| && code[pc] == Store(SlotName(p), p) && SlotName(p) in frame.slots
    requires p in frame.env && !IsInteger(p)
    requires Steps(code, oracle, start, n) == Running(pc, frame, [])
    ensures Steps(code, oracle, start, n + 1)
      == Running(pc + 1, frame.(slots := frame.slots[SlotName(p) := frame.env[p]]), [])
  {
    One(code, oracle, Running(pc, frame, []));
    Then(code, oracle, start, n, Running(pc, frame, []), 1, Step(code, oracle, Running(pc, frame, [])));
  }

  lemma {:induction false} RunStores(
    code: seq<Instr>, oracle: Oracle, off: nat, frame: Frame, vars: set<string>, params: seq<string>, k: nat)
    returns (cells: map<string, int>)
    requires k <= |params| && CodeAt(code, off, ParamStores(params)) && Stored(vars, frame.slots, frame.env, [])
    requires forall p | p in params :: p in frame.env && p in vars && !IsInteger(p)
    ensures Steps(code, oracle, Running(off, frame, []), k) == Running(off + k, frame.(slots := cells), [])
    ensures Stored(vars, cells, frame.env, params[..k])
  {
    hide Steps, Step, ParamStores;
    cells := frame.slots;
    assert params[..0] == [];
    Zero(code, oracle, Running(off, frame, []));
    if k > 0 {
      cells := RunStores(code, oracle, off, frame, vars, params, k - 1);
      var p := params[k - 1];
      StoresStraight(params);
      assert code[off + k - 1] == code[off..off + |ParamStores(params)|][k - 1];
      RunStore(code, oracle, Running(off, frame, []), k - 1, off + k - 1, frame.(slots := cells), p);
      StoredOne(vars, cells, frame.env, params[..k - 1], p);
      assert params[..k] == params[..k - 1] + [p];
      cells := cells[SlotName(p) := frame.env[p]];
    }
  }

  // Both sides bind a repeated parameter to its last argument.
  lemma {:induction false} BindingsAgree(params: seq<string>, args: seq<int>)
    requires |params| == |args|
    ensures BindParams(TypedParams(params), args) == S.BindArgs(params, args)
    ensures S.BindArgs(params, args).Keys == set p | p in params
  {
    if params != [] {
      assert TypedParams(params)[..|params| - 1] == TypedParams(params[..|params| - 1]);
      BindingsAgree(params[..|params| - 1], args[..|args| - 1]);
    }
  }

  ghost predicate FunctionRun(ir: Function, args: seq<int>, oracle: Oracle, outcome: S.Outcome, fuel: nat, n: nat)
    requires |args| == |ir.params|
  {
    var end := Steps(ir.body, oracle, Entry(ir, args), n);
    match outcome
    case Next(_, _) => false
    case Done(v, trace) => end == Returned(Some(v), trace)
    case Fault(trace) => end == Trapped(trace)
    case OutOfFuel => end.Running? && n >= fuel
    case Wrong => false
  }

  // From the entry to the first instruction of the body.
  lemma Prologue(
    ir: Function, params: seq<string>, allocas: seq<Instr>, named: map<string, string>, rest: seq<Instr>,
    args: seq<int>, oracle: Oracle) returns (n: nat, frame: Frame)
    requires ir.params == TypedParams(params) && |args| == |params| && forall p | p in params :: !IsInteger(p)
    requires ir.body == allocas + (ParamStores(params) + rest)
    requires Consistent(allocas, named) && (set p | p in params) <= named.Keys
    ensures n == |allocas| + |ParamStores(params)| && CodeAt(ir.body, n, rest)
    ensures Steps(ir.body, oracle, Entry(ir, args), n) == Running(n, frame, [])
    ensures Agree(named.Keys, frame.slots, S.BindArgs(params, args))
  {
    hide Steps, Step, Consistent, CodeAt, ParamStores, BindParams, S.BindArgs, Stored;
    var code, stores := ir.body, ParamStores(params);
    var start := Entry(ir, args);
    BindingsAgree(params, args);
    StoresStraight(params);
    var frame1 := SlotsZeroed(code, oracle, allocas, named, start.frame);
    WholeCode(code);
    CodeAtSplit(code, 0, allocas, stores + rest);
    CodeAtSplit(code, |allocas|, stores, rest);
    var slots2 := RunStores(code, oracle, |allocas|, frame1, named.Keys, params, |params|);
    assert params[..|params|] == params;
    frame := frame1.(slots := slots2);
    n := |allocas| + |params|;
    Then(code, oracle, start, |allocas|, Running(|allocas|, frame1, []), |params|, Running(n, frame, []));
    StoredAgree(named.Keys, slots2, frame.env, params, S.BindArgs(params, args));
  }

  lemma StoredAgree(vars: set<string>, slots: map<string, int>, env: map<string, int>, params: seq<string>,
      store: S.Store)
    requires Stored(vars, slots, env, params) && env == store && env.Keys == set p | p in params
    ensures Agree(vars, slots, store)
  {
  }

  // Run the allocas: every slot of the function holds 0.
  lemma SlotsZeroed(
    code: seq<Instr>, oracle: Oracle, allocas: seq<Instr>, named: map<string, string>, frame: Frame)
      returns (frame': Frame)
    requires allocas <= code && Consistent(allocas, named) && frame.slots == map[]
    ensures Steps(code, oracle, Running(0, frame, []), |allocas|) == Running(|allocas|, frame', [])
    ensures frame'.env == frame.env && Stored(named.Keys, frame'.slots, frame'.env, [])
  {
    hide Steps, Step;
    assert forall i | 0 <= i < |allocas| :: code[i] == allocas[i];
    var slots := RunAllocas(code, oracle, frame, |allocas|);
    frame' := frame.(slots := slots);
    forall x | x in named
      ensures SlotName(x) in slots && slots[SlotName(x)] == 0
    {
      var i :| 0 <= i < |allocas| && allocas[i] == Alloca(SlotName(x));
      assert code[i].slot in slots;
    }
  }

  // Falling off the end of the body runs the closing return.
  lemma Epilogue(
    code: seq<Instr>, oracle: Oracle, start: Config, n0: nat, n1: nat, off: nat, frame: Frame, b: StmtCode,
      last: seq<Instr>,
    vars: set<string>, outcome: S.Outcome, fuel: nat, frame1: Frame) returns (n: nat)
    requires StmtRun(code, oracle, off, frame, [], b, vars, outcome, fuel, n1, frame1)
    requires Steps(code, oracle, start, n0 + n1) == Steps(code, oracle, Running(off, frame, []), n1)
    requires last == if b.state.terminated then [] else [Ret(Some("0"))]
    requires CodeAt(code, off + |b.code|, last)
    ensures n >= n1
    ensures var end := Steps(code, oracle, start, n);
      match outcome
      case Next(_, trace) => end == Returned(Some(0), trace)
      case Done(v, trace) => end == Returned(Some(v), trace)
      case Fault(trace) => end == Trapped(trace)
      case OutOfFuel => end.Running?
      case Wrong => false
  {
    hide Steps, Step, CodeAt, Operand;
    n := n0 + n1;
    if outcome.Next? {
      CodeAtFirst(code, off + |b.code|, last);
      ZeroOperand(frame1.env);
      ReturnOperand(code, oracle, start, n, off + |b.code|, frame1, outcome.trace, "0", 0);
      n := n + 1;
    }
  }

  /** Forward simulation of a whole call, at every fuel. */
  lemma FunctionSim(f: S.FunctionDecl, args: seq<int>, oracle: Oracle, fuel: nat) returns (n: nat)
    requires LoweredFunction(f).Some? && |args| == |f.params| && forall p | p in f.params :: !IsInteger(p)
    ensures FunctionRun(LoweredFunction(f).value, args, oracle, S.RunFunction(f, args, oracle, fuel), fuel, n)
  {
    hide Steps, Step, LoweredFunction, LoweredStmt, Finished, S.Exec, Consistent, CodeAt, ParamStores, LabelsResolve,
      LabelsUnique, TargetsExist, Operand;
    var b := FunctionLayout(f);
    var ir := LoweredFunction(f).value;
    var code, start := ir.body, Entry(ir, args);
    var st, vars, store := ParamState(f.params), b.state.slots.Keys, S.BindArgs(f.params, args);
    FunctionLabels(f);
    UniqueLabelsResolve(code);
    ParamSlots(f.params);
    StmtShape(StripAt(f.name), f.body, st);
    var last := if b.state.terminated then [] else [Ret(Some("0"))];
    var n0, frame := Prologue(ir, f.params, b.state.allocas, b.state.slots, b.code + last, args, oracle);
    CodeAtSplit(code, n0, b.code, last);
    var n1, frame1 := StmtSim(code, oracle, StripAt(f.name), f.body, st, vars, n0, frame, [], store, fuel);
    Then(code, oracle, start, n0, Running(n0, frame, []), n1, Steps(code, oracle, Running(n0, frame, []), n1));
    n := Epilogue(code, oracle, start, n0, n1, n0, frame, b, last, vars, S.Exec(f.body, store, [], oracle, fuel), fuel,
      frame1);
  }

  ghost predicate SourceEnds(f: S.FunctionDecl, args: seq<int>, oracle: Oracle, outcome: S.Outcome)
    requires |args| == |f.params|
  {
    exists fuel: nat :: S.RunFunction(f, args, oracle, fuel) == outcome
  }

  ghost predicate IrEnds(ir: Function, args: seq<int>, oracle: Oracle, end: Config)
    requires |args| == |ir.params|
  {
    exists n: nat :: Steps(ir.body, oracle, Entry(ir, args), n) == end
  }

  ghost predicate SourceDiverges(f: S.FunctionDecl, args: seq<int>, oracle: Oracle)
    requires |args| == |f.params|
  {
    forall fuel: nat :: S.RunFunction(f, args, oracle, fuel) == S.OutOfFuel
  }

  ghost predicate IrDiverges(ir: Function, args: seq<int>, oracle: Oracle)
    requires |args| == |ir.params|
  {
    forall n: nat :: Steps(ir.body, oracle, Entry(ir, args), n).Running?
  }

  // A halted run is the end of the source run at a fuel no loop can exhaust in that many steps.
  lemma IrHaltsAsSource(f: S.FunctionDecl, args: seq<int>, oracle: Oracle, n: nat)
    requires LoweredFunction(f).Some? && |args| == |f.params| && forall p | p in f.params :: !IsInteger(p)
    requires !Steps(LoweredFunction(f).value.body, oracle, Entry(LoweredFunction(f).value, args), n).Running?
    ensures var end := Steps(LoweredFunction(f).value.body, oracle, Entry(LoweredFunction(f).value, args), n);
      match S.RunFunction(f, args, oracle, n + 1)
      case Done(v, trace) => end == Returned(Some(v), trace)
      case Fault(trace) => end == Trapped(trace)
      case _ => false
  {
    hide LoweredFunction, S.RunFunction, Steps, Step;
    var ir := LoweredFunction(f).value;
    assert |ir.params| == |f.params| by { var _ := FunctionLayout(f); }
    var m := FunctionSim(f, args, oracle, n + 1);
    if Steps(ir.body, oracle, Entry(ir, args), m).Running? {
      StepsCompose(ir.body, oracle, Entry(ir, args), n, m - n);
      HaltedStays(ir.body, oracle, Steps(ir.body, oracle, Entry(ir, args), n), m - n);
    } else {
      HaltsOnce(ir.body, oracle, Entry(ir, args), m, n);
    }
  }

  /** Lowering preserves meaning. For every function it accepts and every call: the two
      sides return the same value after the same calls, trap after the same calls, or
      both run for ever; and the emitted code never gets stuck. */
  lemma LoweringPreservesMeaning(f: S.FunctionDecl, args: seq<int>, oracle: Oracle)
    requires LoweredFunction(f).Some? && |args| == |f.params| && forall p | p in f.params :: !IsInteger(p)
    ensures |LoweredFunction(f).value.params| == |args|
    ensures forall v, trace ::
      SourceEnds(f, args, oracle, S.Done(v, trace)) <==>
        IrEnds(LoweredFunction(f).value, args, oracle, Returned(Some(v), trace))
    ensures forall trace ::
      SourceEnds(f, args, oracle, S.Fault(trace)) <==> IrEnds(LoweredFunction(f).value, args, oracle, Trapped(trace))
    ensures SourceDiverges(f, args, oracle) <==> IrDiverges(LoweredFunction(f).value, args, oracle)
    ensures !IrEnds(LoweredFunction(f).value, args, oracle, Stuck)
  {
    hide LoweredFunction, S.RunFunction, Steps, Step;
    var ir := LoweredFunction(f).value;
    assert |ir.params| == |f.params| by { var _ := FunctionLayout(f); }
    forall fuel: nat
      ensures exists n: nat :: FunctionRun(ir, args, oracle, S.RunFunction(f, args, oracle, fuel), fuel, n)
    {
      var n := FunctionSim(f, args, oracle, fuel);
    }
    forall n: nat | !Steps(ir.body, oracle, Entry(ir, args), n).Running?
      ensures !S.RunFunction(f, args, oracle, n + 1).OutOfFuel?
      ensures FunctionRun(ir, args, oracle, S.RunFunction(f, args, oracle, n + 1), n + 1, n)
    {
      IrHaltsAsSource(f, args, oracle, n);
    }
    forall fuel: nat | SourceDiverges(f, args, oracle)
      ensures Steps(ir.body, oracle, Entry(ir, args), fuel).Running?
    {
      assert S.RunFunction(f, args, oracle, fuel + 1) == S.OutOfFuel;
    }
  }
}
