/** Renaming of a function's own temporaries: it is idempotent, injective exactly when the
    new names are free, and then changes nothing about how the function runs. */
module Ssa {
  import opened Names
  import opened Finite
  import opened Ir
  import LowerFn

  // ----- Which names are the function's own -----

  // `%t` followed by digits only.
  predicate IsRenamed(s: string) {
    "%t" <= s && AllDigits(s[2..])
  }

  function LocalPrefix(fname: string): string {
    "%" + LowerFn.StripAt(fname) + "_"
  }

  predicate IsCandidate(fname: string, s: string) {
    LocalPrefix(fname) <= s && !IsRenamed(s)
  }

  // The temporary an instruction of the collected kinds defines.
  function Collected(i: Instr): Option<string> {
    match i
    case ConstI64(dest, _) => Some(dest)
    case Arith(_, dest, _, _) => Some(dest)
    case Call(dest, _, _) => Some(dest)
    case Phi(dest, _, _) => Some(dest)
    case _ => None
  }

  function Added(fname: string, defs: seq<string>, i: Instr): seq<string> {
    match Collected(i)
    case Some(d) => if IsCandidate(fname, d) && d !in defs then defs + [d] else defs
    case None => defs
  }

  // The function's own temporaries in order of first definition.
  function Defs(fname: string, code: seq<Instr>): seq<string> {
    if code == [] then [] else Added(fname, Defs(fname, code[..|code| - 1]), code[|code| - 1])
  }

  lemma {:induction false} DefsAre(fname: string, code: seq<Instr>)
    ensures Distinct(Defs(fname, code))
    ensures forall d :: d in Defs(fname, code) <==> IsCandidate(fname, d) && exists k ::
      0 <= k < |code| && Collected(code[k]) == Some(d)
  {
    hide IsCandidate, Collected;
    if code != [] {
      var front, last := code[..|code| - 1], code[|code| - 1];
      DefsAre(fname, front);
      assert code == front + [last];
      forall d
        ensures (exists k :: 0 <= k < |code| && Collected(code[k]) == Some(d)) <==>
                Collected(last) == Some(d) || exists k :: 0 <= k < |front| && Collected(front[k]) == Some(d)
      {
        if k :| 0 <= k < |front| && Collected(front[k]) == Some(d) {
          assert code[k] == front[k];
        }
        if Collected(last) == Some(d) {
          assert code[|front|] == last;
        }
      }
    }
  }

  // ----- Renaming -----

  function Position(defs: seq<string>, s: string): (k: nat)
    requires s in defs
    ensures k < |defs| && defs[k] == s
  {
    if defs[0] == s then 0 else 1 + Position(defs[1..], s)
  }

  function Rename(defs: seq<string>, s: string): string {
    if s in defs then TmpName(Position(defs, s)) else s
  }

  function RenameAll(defs: seq<string>, ss: seq<string>): seq<string> {
    if ss == [] then [] else RenameAll(defs, ss[..|ss| - 1]) + [Rename(defs, ss[|ss| - 1])]
  }

  function RenamePairs(defs: seq<string>, pairs: seq<(string, string)>): seq<(string, string)> {
    if pairs == [] then [] else [(Rename(defs, pairs[0].0), pairs[0].1)] + RenamePairs(defs, pairs[1..])
  }

  function RenameInstr(defs: seq<string>, i: Instr): Instr {
    match i
    case ConstI64(dest, v) => ConstI64(Rename(defs, dest), v)
    case Arith(op, dest, a, b) => Arith(op, Rename(defs, dest), Rename(defs, a), Rename(defs, b))
    case ICmp(dest, pred, a, b) => ICmp(Rename(defs, dest), pred, Rename(defs, a), Rename(defs, b))
    case Call(dest, callee, args) => Call(Rename(defs, dest), callee, RenameAll(defs, args))
    case Load(dest, slot) => Load(Rename(defs, dest), Rename(defs, slot))
    case Store(slot, val) => Store(Rename(defs, slot), Rename(defs, val))
    case BrCond(cond, t, f) => BrCond(Rename(defs, cond), t, f)
    case Phi(dest, ty, pairs) => Phi(Rename(defs, dest), ty, RenamePairs(defs, pairs))
    case Ret(Some(s)) => Ret(Some(Rename(defs, s)))
    case _ => i
  }

  function RenameCode(defs: seq<string>, code: seq<Instr>): (r: seq<Instr>)
    ensures |r| == |code|
    ensures forall k | 0 <= k < |code| :: r[k] == RenameInstr(defs, code[k])
  {
    if code == [] then [] else [RenameInstr(defs, code[0])] + RenameCode(defs, code[1..])
  }

  function Renamed(f: Function): Function {
    f.(body := RenameCode(Defs(f.name, f.body), f.body))
  }

  // ----- Idempotence -----

  lemma RenamedIsRenamed(k: nat)
    ensures IsRenamed(TmpName(k))
  {
    DecimalRoundTrip(k);
    assert TmpName(k)[2..] == Decimal(k);
  }

  lemma CollectedRenamed(defs: seq<string>, i: Instr)
    ensures Collected(RenameInstr(defs, i)) == match Collected(i) case Some(d) => Some(Rename(defs, d))
      case None => None
  {
  }

  lemma {:induction false} RenameNothing(code: seq<Instr>)
    ensures RenameCode([], code) == code
  {
    forall k | 0 <= k < |code|
      ensures RenameInstr([], code[k]) == code[k]
    {
      RenameInstrNothing(code[k]);
    }
  }

  lemma RenameInstrNothing(i: Instr)
    ensures RenameInstr([], i) == i
  {
    if i.Call? {
      RenameAllNothing(i.args);
    }
    if i.Phi? {
      RenamePairsNothing(i.pairs);
    }
  }

  lemma {:induction false} RenameAllNothing(ss: seq<string>)
    ensures RenameAll([], ss) == ss
  {
    if ss != [] {
      RenameAllNothing(ss[..|ss| - 1]);
    }
  }

  lemma {:induction false} RenamePairsNothing(pairs: seq<(string, string)>)
    ensures RenamePairs([], pairs) == pairs
  {
    if pairs != [] {
      RenamePairsNothing(pairs[1..]);
    }
  }

  // What an instruction defines after renaming is no candidate any more.
  lemma NoCandidateLeft(fname: string, defs: seq<string>, i: Instr)
    requires Collected(i).Some? && IsCandidate(fname, Collected(i).value) ==> Collected(i).value in defs
    ensures Collected(RenameInstr(defs, i)).Some? ==> !IsCandidate(fname, Collected(RenameInstr(defs, i)).value)
  {
    CollectedRenamed(defs, i);
    if Collected(i).Some? && Collected(i).value in defs {
      RenamedIsRenamed(Position(defs, Collected(i).value));
    }
  }

  /** Renaming a second time changes nothing, for every function. */
  lemma RenameIsIdempotent(f: Function)
    ensures Renamed(Renamed(f)) == Renamed(f)
  {
    var defs := Defs(f.name, f.body);
    var code := RenameCode(defs, f.body);
    var left := Defs(f.name, code);
    assert left != [] ==> left[0] in left;
    DefsAre(f.name, f.body);
    DefsAre(f.name, code);
    hide IsCandidate, Collected, RenameInstr, RenameCode, Defs;
    forall k | 0 <= k < |code|
      ensures Collected(code[k]).Some? ==> !IsCandidate(f.name, Collected(code[k]).value)
    {
      NoCandidateLeft(f.name, defs, f.body[k]);
    }
    RenameNothing(code);
  }

  // ----- Injectivity -----

  // The names an instruction mentions, labels aside.
  function Mentioned(i: Instr): set<string> {
    match i
    case ConstI64(dest, _) => {dest}
    case Arith(_, dest, a, b) => {dest, a, b}
    case ICmp(dest, _, a, b) => {dest, a, b}
    case Call(dest, _, args) => {dest} + Elements(args)
    case Alloca(slot) => {slot}
    case Load(dest, slot) => {dest, slot}
    case Store(slot, val) => {slot, val}
    case BrCond(cond, _, _) => {cond}
    case Phi(dest, _, pairs) => {dest} + set p | p in pairs :: p.0
    case Ret(Some(s)) => {s}
    case _ => {}
  }

  function NamesOf(f: Function): set<string> {
    (set p | p in f.params :: p.0) + set k, s | 0 <= k < |f.body| && s in Mentioned(f.body[k]) :: s
  }

  ghost predicate InjectiveOn(defs: seq<string>, names: set<string>) {
    forall a, b | a in names && b in names && Rename(defs, a) == Rename(defs, b) :: a == b
  }

  /** No other name of the function is one of the new names already. */
  ghost predicate NewNamesFree(f: Function) {
    var defs := Defs(f.name, f.body);
    forall s, k: nat | s in NamesOf(f) && s !in defs && k < |defs| :: s != TmpName(k)
  }

  lemma DefIsMentioned(f: Function, d: string)
    requires d in Defs(f.name, f.body)
    ensures d in NamesOf(f)
  {
    DefsAre(f.name, f.body);
    var k :| 0 <= k < |f.body| && Collected(f.body[k]) == Some(d);
    assert d in Mentioned(f.body[k]);
  }

  /** Renaming keeps the function's names apart if and only if the new names are free. */
  lemma InjectiveExactlyWhenFree(f: Function)
    ensures InjectiveOn(Defs(f.name, f.body), NamesOf(f)) <==> NewNamesFree(f)
  {
    hide NamesOf, TmpName;
    var defs := Defs(f.name, f.body);
    DefsAre(f.name, f.body);
    if InjectiveOn(defs, NamesOf(f)) {
      forall s, k: nat | s in NamesOf(f) && s !in defs && k < |defs|
        ensures s != TmpName(k)
      {
        DefIsMentioned(f, defs[k]);
        PositionAt(defs, k);
        assert Rename(defs, s) == s;
      }
    }
    if NewNamesFree(f) {
      forall a, b | a in NamesOf(f) && b in NamesOf(f) && Rename(defs, a) == Rename(defs, b)
        ensures a == b
      {
        if a in defs && b in defs {
          TmpNameInjective(Position(defs, a), Position(defs, b));
        }
      }
    }
  }

  lemma PositionAt(defs: seq<string>, k: nat)
    requires Distinct(defs) && k < |defs|
    ensures Position(defs, defs[k]) == k
  {
    var p := Position(defs, defs[k]);
    assert defs[p] == defs[k];
  }

  // ----- Which number a temporary gets -----

  // The instruction defines d, spelled `%<function>_...` and not yet `%t<number>`.
  predicate DefinesOwn(fname: string, i: Instr, d: string) {
    && (i.ConstI64? || i.Arith? || i.Call? || i.Phi?) && i.dest == d
    && "%" + LowerFn.StripAt(fname) + "_" <= d
    && !("%t" <= d && forall k | 2 <= k < |d| :: '0' <= d[k] <= '9')
  }

  // The function's own temporaries that the first i instructions define.
  function OwnBefore(fname: string, code: seq<Instr>, i: nat): set<string>
    requires i <= |code|
  {
    set k, d | 0 <= k < i && d in Mentioned(code[k]) && DefinesOwn(fname, code[k], d) :: d
  }

  lemma OwnIsCollected(fname: string, i: Instr, d: string)
    ensures DefinesOwn(fname, i, d) <==> Collected(i) == Some(d) && IsCandidate(fname, d)
  {
    if "%t" <= d {
      assert forall k | 2 <= k < |d| :: d[k] == d[2..][k - 2];
      assert forall k | 0 <= k < |d[2..]| :: d[2..][k] == d[k + 2];
    }
  }

  lemma DefsCount(fname: string, code: seq<Instr>, i: nat)
    requires i <= |code|
    ensures Elements(Defs(fname, code[..i])) == OwnBefore(fname, code, i)
    ensures |Defs(fname, code[..i])| == |OwnBefore(fname, code, i)|
  {
    hide Defs, DefinesOwn, Collected, IsCandidate, Mentioned;
    DefsAre(fname, code[..i]);
    forall d
      ensures d in Defs(fname, code[..i]) <==> d in OwnBefore(fname, code, i)
    {
      if d in Defs(fname, code[..i]) {
        var k :| 0 <= k < i && Collected(code[..i][k]) == Some(d);
        OwnIsCollected(fname, code[k], d);
        OwnIsMentioned(fname, code[k], d);
      }
      if d in OwnBefore(fname, code, i) {
        var k :| 0 <= k < i && d in Mentioned(code[k]) && DefinesOwn(fname, code[k], d);
        OwnIsCollected(fname, code[k], d);
        assert code[..i][k] == code[k];
      }
    }
    DistinctCard(Defs(fname, code[..i]));
  }

  lemma OwnIsMentioned(fname: string, i: Instr, d: string)
    requires DefinesOwn(fname, i, d)
    ensures d in Mentioned(i)
  {
  }

  // Later definitions come behind earlier ones.
  lemma {:induction false} DefsGrow(fname: string, code: seq<Instr>, i: nat)
    requires i <= |code|
    ensures Defs(fname, code[..i]) <= Defs(fname, code)
  {
    if i < |code| {
      DefsGrow(fname, code[..|code| - 1], i);
      assert code[..|code| - 1][..i] == code[..i];
    } else {
      assert code[..i] == code;
    }
  }

  /** Temporaries are numbered in order of appearance: a temporary first defined by instruction i
      becomes `%t<k>`, where k others are defined before it. */
  lemma NumberedByAppearance(f: Function, i: nat, d: string)
    requires i < |f.body| && DefinesOwn(f.name, f.body[i], d) && d !in OwnBefore(f.name, f.body, i)
    ensures Rename(Defs(f.name, f.body), d) == TmpName(|OwnBefore(f.name, f.body, i)|)
    ensures |Renamed(f).body| == |f.body|
      && Collected(Renamed(f).body[i]) == Some(TmpName(|OwnBefore(f.name, f.body, i)|))
  {
    hide DefinesOwn, IsCandidate, Collected, OwnBefore, TmpName;
    var front, defs := Defs(f.name, f.body[..i]), Defs(f.name, f.body);
    DefsCount(f.name, f.body, i);
    OwnIsCollected(f.name, f.body[i], d);
    var upTo := f.body[..i + 1];
    assert upTo[..|upTo| - 1] == f.body[..i] && upTo[|upTo| - 1] == f.body[i];
    assert d !in Elements(front);
    assert Defs(f.name, upTo) == front + [d];
    DefsGrow(f.name, f.body, i + 1);
    assert defs[|front|] == d;
    DefsAre(f.name, f.body);
    PositionAt(defs, |front|);
    CollectedRenamed(defs, f.body[i]);
  }

  /** Every other name stays. */
  lemma OthersKeepTheirNames(f: Function, s: string)
    requires forall i | 0 <= i < |f.body| :: !DefinesOwn(f.name, f.body[i], s)
    ensures Rename(Defs(f.name, f.body), s) == s
  {
    hide DefinesOwn, IsCandidate, Collected;
    DefsAre(f.name, f.body);
    if s in Defs(f.name, f.body) {
      var k :| 0 <= k < |f.body| && Collected(f.body[k]) == Some(s);
      OwnIsCollected(f.name, f.body[k], s);
    }
  }

  // ----- Running the renamed function -----

  /** Same values under the new names. */
  ghost predicate EnvAgrees(defs: seq<string>, names: set<string>, env: map<string, int>, env': map<string, int>) {
    forall s | s in names :: (s in env <==> Rename(defs, s) in env') && (s in env ==> env'[Rename(defs, s)] == env[s])
  }

  ghost predicate FrameAgrees(defs: seq<string>, names: set<string>, f: Frame, f': Frame) {
    EnvAgrees(defs, names, f.env, f'.env) && f'.slots == f.slots && f'.prev == f.prev && f'.block == f.block
  }

  ghost predicate SameRun(defs: seq<string>, names: set<string>, c: Config, c': Config) {
    if c.Running? then c'.Running? && c'.pc == c.pc && c'.trace == c.trace
      && FrameAgrees(defs, names, c.frame, c'.frame)
    else c' == c
  }

  // Only temporaries that start like one are renamed, and no stack slot is.
  ghost predicate Renameable(defs: seq<string>, code: seq<Instr>) {
    && (forall d | d in defs :: d != "" && d[0] == '%')
    && (forall k | 0 <= k < |code| && code[k].Load? :: code[k].slot !in defs)
    && (forall k | 0 <= k < |code| && code[k].Store? :: code[k].slot !in defs)
  }

  lemma OperandRenamed(defs: seq<string>, names: set<string>, env: map<string, int>, env': map<string, int>, s: string)
    requires EnvAgrees(defs, names, env, env') && s in names && forall d | d in defs :: d != "" && d[0] == '%'
    ensures Operand(env', Rename(defs, s)) == Operand(env, s)
  {
    if s in defs {
      TmpNameIsNotInteger(Position(defs, s));
      assert !IsInteger(s);
    }
  }

  lemma {:induction false} OperandsRenamed(defs: seq<string>, names: set<string>, env: map<string, int>,
      env': map<string, int>, ss: seq<string>)
    requires EnvAgrees(defs, names, env, env') && (forall s | s in ss :: s in names) && forall d | d in defs ::
      d != "" && d[0] == '%'
    ensures Operands(env', RenameAll(defs, ss)) == Operands(env, ss)
  {
    hide EnvAgrees, Operand, Rename;
    if ss != [] {
      var front, last := ss[..|ss| - 1], ss[|ss| - 1];
      OperandsRenamed(defs, names, env, env', front);
      OperandRenamed(defs, names, env, env', last);
      assert RenameAll(defs, ss)[..|RenameAll(defs, ss)| - 1] == RenameAll(defs, front);
    }
  }

  lemma Defined(defs: seq<string>, names: set<string>, env: map<string, int>, env': map<string, int>, d: string, v: int)
    requires EnvAgrees(defs, names, env, env') && d in names && InjectiveOn(defs, names)
    ensures EnvAgrees(defs, names, env[d := v], env'[Rename(defs, d) := v])
  {
    hide Rename;
  }

  lemma {:induction false} LabelsStay(defs: seq<string>, code: seq<Instr>, target: string)
    ensures FindLabel(RenameCode(defs, code), target) == FindLabel(code, target)
  {
    if code != [] {
      LabelsStay(defs, code[1..], target);
      assert RenameCode(defs, code)[1..] == RenameCode(defs, code[1..]);
    }
  }

  lemma {:induction false} IncomingRenamed(defs: seq<string>, pairs: seq<(string, string)>, prev: string)
    ensures Incoming(RenamePairs(defs, pairs), prev) ==
            match Incoming(pairs, prev) case Some(s) => Some(Rename(defs, s)) case None => None
    ensures Incoming(pairs, prev).Some? ==> exists p :: p in pairs && p.0 == Incoming(pairs, prev).value
  {
    if pairs != [] {
      IncomingRenamed(defs, pairs[1..], prev);
      assert RenamePairs(defs, pairs)[1..] == RenamePairs(defs, pairs[1..]);
      assert pairs[0] in pairs;
    }
  }

  // Two runs in step, and all that renaming relies on.
  ghost predicate InStep(defs: seq<string>, names: set<string>, code: seq<Instr>, c: Config, c': Config) {
    && InjectiveOn(defs, names) && Renameable(defs, code)
    && (forall k | 0 <= k < |code| :: Mentioned(code[k]) <= names)
    && SameRun(defs, names, c, c')
  }

  ghost predicate StaysInStep(defs: seq<string>, names: set<string>, code: seq<Instr>, oracle: Oracle, c: Config,
      c': Config) {
    SameRun(defs, names, Step(code, oracle, c), Step(RenameCode(defs, code), oracle, c'))
  }

  lemma StepDefines(defs: seq<string>, names: set<string>, code: seq<Instr>, oracle: Oracle, c: Config, c': Config)
    requires InStep(defs, names, code, c, c') && c.Running? && c.pc < |code|
    requires code[c.pc].ConstI64? || code[c.pc].Arith? || code[c.pc].ICmp?
    ensures StaysInStep(defs, names, code, oracle, c, c')
  {
    hide InjectiveOn, EnvAgrees, Rename, Operand, Compute;
    var e, e' := c.frame.env, c'.frame.env;
    assert Mentioned(code[c.pc]) <= names;
    match code[c.pc]
    case ConstI64(dest, v) => Defined(defs, names, e, e', dest, v);
    case Arith(op, dest, a, b) =>
      OperandRenamed(defs, names, e, e', a);
      OperandRenamed(defs, names, e, e', b);
      if Operand(e, a).Some? && Operand(e, b).Some? {
        var r := Compute(op, Operand(e, a).value, Operand(e, b).value);
        if r.Some? {
          Defined(defs, names, e, e', dest, r.value);
        }
      }
    case ICmp(dest, pred, a, b) =>
      OperandRenamed(defs, names, e, e', a);
      OperandRenamed(defs, names, e, e', b);
      if Operand(e, a).Some? && Operand(e, b).Some? {
        Defined(defs, names, e, e', dest, Compare(pred, Operand(e, a).value, Operand(e, b).value));
      }
  }

  lemma StepCalls(defs: seq<string>, names: set<string>, code: seq<Instr>, oracle: Oracle, c: Config, c': Config)
    requires InStep(defs, names, code, c, c') && c.Running? && c.pc < |code| && code[c.pc].Call?
    ensures StaysInStep(defs, names, code, oracle, c, c')
  {
    hide InjectiveOn, EnvAgrees, Rename, Operands;
    var i, e, e' := code[c.pc], c.frame.env, c'.frame.env;
    assert Mentioned(i) <= names;
    OperandsRenamed(defs, names, e, e', i.args);
    if Operands(e, i.args).Some? {
      var r := oracle(c.trace, i.callee, Operands(e, i.args).value);
      if r.Some? {
        Defined(defs, names, e, e', i.dest, r.value);
      }
    }
  }

  lemma StepMemory(defs: seq<string>, names: set<string>, code: seq<Instr>, oracle: Oracle, c: Config, c': Config)
    requires InStep(defs, names, code, c, c') && c.Running? && c.pc < |code|
    requires code[c.pc].Load? || code[c.pc].Store? || code[c.pc].Alloca?
    ensures StaysInStep(defs, names, code, oracle, c, c')
  {
    hide InjectiveOn, EnvAgrees, Operand;
    var e, e' := c.frame.env, c'.frame.env;
    assert Mentioned(code[c.pc]) <= names;
    match code[c.pc]
    case Load(dest, slot) =>
      assert Rename(defs, slot) == slot;
      if slot in c.frame.slots {
        Defined(defs, names, e, e', dest, c.frame.slots[slot]);
      }
    case Store(slot, val) =>
      assert Rename(defs, slot) == slot;
      OperandRenamed(defs, names, e, e', val);
    case Alloca(_) =>
  }

  lemma JumpRenamed(defs: seq<string>, names: set<string>, code: seq<Instr>, target: string, f: Frame, f': Frame,
      trace: seq<Event>)
    requires FrameAgrees(defs, names, f, f')
    ensures SameRun(defs, names, Jump(code, target, f, trace), Jump(RenameCode(defs, code), target, f', trace))
  {
    hide FrameAgrees, FindLabel;
    LabelsStay(defs, code, target);
  }

  lemma StepBranches(defs: seq<string>, names: set<string>, code: seq<Instr>, oracle: Oracle, c: Config, c': Config)
    requires InStep(defs, names, code, c, c') && c.Running? && c.pc < |code| && code[c.pc].BrCond?
    ensures StaysInStep(defs, names, code, oracle, c, c')
  {
    hide InjectiveOn, Renameable, EnvAgrees, Operand, Rename, Jump;
    var i, code' := code[c.pc], RenameCode(defs, code);
    assert Mentioned(i) <= names;
    OperandRenamed(defs, names, c.frame.env, c'.frame.env, i.cond) by { Renames(defs, code); }
    assert code'[c.pc] == BrCond(Rename(defs, i.cond), i.ifTrue, i.ifFalse);
    assert c'.Running? && c'.pc == c.pc && c'.trace == c.trace && FrameAgrees(defs, names, c.frame, c'.frame);
    hide SameRun, FrameAgrees, RenameCode;
    var v := Operand(c.frame.env, i.cond);
    if v.Some? {
      JumpRenamed(defs, names, code, if v.value != 0 then i.ifTrue else i.ifFalse, c.frame, c'.frame, c.trace);
    } else {
      assert Step(code', oracle, c') == Stuck;
      StuckAgree(defs, names);
    }
  }

  lemma StuckAgree(defs: seq<string>, names: set<string>)
    ensures SameRun(defs, names, Stuck, Stuck)
  {
  }

  lemma Renames(defs: seq<string>, code: seq<Instr>)
    requires Renameable(defs, code)
    ensures forall d | d in defs :: d != "" && d[0] == '%'
  {
  }

  lemma StepJumps(defs: seq<string>, names: set<string>, code: seq<Instr>, oracle: Oracle, c: Config, c': Config)
    requires InStep(defs, names, code, c, c') && c.Running? && c.pc < |code|
    requires code[c.pc].Br? || code[c.pc].Ret? || code[c.pc].Label? || code[c.pc].Deopt?
    ensures StaysInStep(defs, names, code, oracle, c, c')
  {
    hide InjectiveOn, Renameable, EnvAgrees, Operand, Rename, Jump;
    assert Mentioned(code[c.pc]) <= names;
    match code[c.pc]
    case Br(target) => JumpRenamed(defs, names, code, target, c.frame, c'.frame, c.trace);
    case Ret(Some(s)) => OperandRenamed(defs, names, c.frame.env, c'.frame.env, s) by { Renames(defs, code); }
    case _ =>
  }

  lemma StepMerges(defs: seq<string>, names: set<string>, code: seq<Instr>, oracle: Oracle, c: Config, c': Config)
    requires InStep(defs, names, code, c, c') && c.Running? && c.pc < |code| && code[c.pc].Phi?
    ensures StaysInStep(defs, names, code, oracle, c, c')
  {
    hide InjectiveOn, EnvAgrees, Operand, Rename, Incoming;
    var i, e, e' := code[c.pc], c.frame.env, c'.frame.env;
    assert Mentioned(i) <= names;
    IncomingRenamed(defs, i.pairs, c.frame.prev);
    if Incoming(i.pairs, c.frame.prev).Some? {
      var s := Incoming(i.pairs, c.frame.prev).value;
      OperandRenamed(defs, names, e, e', s);
      if Operand(e, s).Some? {
        Defined(defs, names, e, e', i.dest, Operand(e, s).value);
      }
    }
  }

  lemma StepRenamed(defs: seq<string>, names: set<string>, code: seq<Instr>, oracle: Oracle, c: Config, c': Config)
    requires InStep(defs, names, code, c, c')
    ensures StaysInStep(defs, names, code, oracle, c, c')
  {
    if c.Running? && c.pc < |code| {
      hide InStep, StaysInStep;
      match code[c.pc]
      case ConstI64(_, _) => StepDefines(defs, names, code, oracle, c, c');
      case Arith(_, _, _, _) => StepDefines(defs, names, code, oracle, c, c');
      case ICmp(_, _, _, _) => StepDefines(defs, names, code, oracle, c, c');
      case Call(_, _, _) => StepCalls(defs, names, code, oracle, c, c');
      case Alloca(_) => StepMemory(defs, names, code, oracle, c, c');
      case Load(_, _) => StepMemory(defs, names, code, oracle, c, c');
      case Store(_, _) => StepMemory(defs, names, code, oracle, c, c');
      case Phi(_, _, _) => StepMerges(defs, names, code, oracle, c, c');
      case BrCond(_, _, _) => StepBranches(defs, names, code, oracle, c, c');
      case _ => StepJumps(defs, names, code, oracle, c, c');
    }
  }

  lemma {:induction false} StepsRenamed(defs: seq<string>, names: set<string>, code: seq<Instr>, oracle: Oracle,
      c: Config, c': Config, n: nat)
    requires InjectiveOn(defs, names) && Renameable(defs, code)
    requires forall k | 0 <= k < |code| :: Mentioned(code[k]) <= names
    requires SameRun(defs, names, c, c')
    ensures SameRun(defs, names, Steps(code, oracle, c, n), Steps(RenameCode(defs, code), oracle, c', n))
    decreases n
  {
    hide InjectiveOn, Renameable, SameRun, Step, Mentioned, RenameCode;
    if n > 0 {
      StepRenamed(defs, names, code, oracle, c, c');
      StepsRenamed(defs, names, code, oracle, Step(code, oracle, c), Step(RenameCode(defs, code), oracle, c'), n - 1);
    }
  }

  /** What the lowering guarantees of its output and what the pass needs: parameters and
      stack slots are not among the renamed temporaries. */
  ghost predicate Admissible(f: Function) {
    var defs := Defs(f.name, f.body);
    (forall p | p in f.params :: p.0 !in defs) && Renameable(defs, f.body)
  }

  /** Renaming preserves every run when the new names are free: the same steps, calls,
      branches, returned value or trap, from the same arguments. */
  lemma RenamePreservesRuns(f: Function, args: seq<int>, oracle: Oracle, n: nat)
    requires NewNamesFree(f) && Admissible(f) && |args| == |f.params|
    ensures SameRun(Defs(f.name, f.body), NamesOf(f), Steps(f.body, oracle, Entry(f, args), n),
                    Steps(Renamed(f).body, oracle, Entry(Renamed(f), args), n))
  {
    hide Rename, Renameable, Mentioned, Defs;
    var defs := Defs(f.name, f.body);
    InjectiveExactlyWhenFree(f);
    EntryAgrees(f, args);
    assert forall k | 0 <= k < |f.body| :: Mentioned(f.body[k]) <= NamesOf(f);
    hide NamesOf, InjectiveOn;
    StepsRenamed(defs, NamesOf(f), f.body, oracle, Entry(f, args), Entry(Renamed(f), args), n);
  }

  lemma EntryAgrees(f: Function, args: seq<int>)
    requires NewNamesFree(f) && Admissible(f) && |args| == |f.params|
    ensures EnvAgrees(Defs(f.name, f.body), NamesOf(f), BindParams(f.params, args), BindParams(f.params, args))
  {
    hide Renameable, Defs, TmpName;
    var defs, env := Defs(f.name, f.body), BindParams(f.params, args);
    BoundAreParams(f.params, args);
    forall s | s in NamesOf(f)
      ensures (s in env <==> Rename(defs, s) in env) && (s in env ==> env[Rename(defs, s)] == env[s])
    {
      if s in defs {
        var k := Position(defs, s);
        assert forall p | p in f.params :: p.0 in NamesOf(f) && p.0 !in defs && p.0 != TmpName(k);
      }
    }
  }

  lemma {:induction false} BoundAreParams(params: seq<(string, Type)>, args: seq<int>)
    requires |params| == |args|
    ensures forall x | x in BindParams(params, args) :: exists p :: p in params && p.0 == x
  {
    if params != [] {
      BoundAreParams(params[..|params| - 1], args[..|args| - 1]);
      assert params == params[..|params| - 1] + [params[|params| - 1]];
      assert params[|params| - 1] in params;
    }
  }
}
